/** What a monitoring step closes, at which price, with which share and status, and how the trailing stop follows. */
module ClosingRules {
  import opened Common
  import opened Positions
  import StopRatchet

  // ---------- Prices that matter to a position ----------

  /** The price has gone against the side as far as the level. */
  predicate HasFallenTo(side: OrderSide, price: real, level: Option<real>) {
    level.Some? && if side == Buy then price <= level.value else price >= level.value
  }

  /** The price has gone with the side as far as the level. */
  predicate HasRisenTo(side: OrderSide, price: real, level: Option<real>) {
    level.Some? && if side == Buy then price >= level.value else price <= level.value
  }

  predicate AtStop(p: LivePosition, price: real) {
    HasFallenTo(p.side, price, p.slPrice)
  }

  /** The first target counts as long as the status is OPEN. */
  predicate FirstDue(p: LivePosition, price: real) {
    p.status == OPEN && HasRisenTo(p.side, price, p.tpPrice)
  }

  predicate AnyTargetDue(p: LivePosition, price: real) {
    FirstDue(p, price) || HasRisenTo(p.side, price, p.tp2Price) || HasRisenTo(p.side, price, p.tp3Price)
  }

  /** The gain in price has reached r entry ATRs, and there is an entry ATR. */
  predicate HasGained(p: LivePosition, price: real, r: real) {
    p.atrAtEntry.Some? && p.atrAtEntry.value > 0.0
    && if p.side == Buy then price >= p.entryPrice + r * p.atrAtEntry.value
       else price <= p.entryPrice - r * p.atrAtEntry.value
  }

  // ---------- Closing all of it ----------

  /** q is p closed as a whole at this price, with its profit or loss. */
  predicate IsClosedWhole(p: LivePosition, q: LivePosition, price: real, status: Status) {
    q.id == p.id && q.symbol == p.symbol && q.side == p.side && q.units == p.units && q.entryPrice == p.entryPrice
    && q.slPrice == p.slPrice && q.tpPrice == p.tpPrice && q.currentPrice == price && q.status == status
    && q.realizedPnl == Some(ProfitOf(p.side, p.entryPrice, price, p.units))
  }

  function ProfitOf(side: OrderSide, entry: real, exit: real, units: real): real {
    if side == Buy then (exit - entry) * units else (entry - exit) * units
  }

  lemma ProfitAtPrice(p: LivePosition, price: real)
    ensures p.PnlAt(price) == ProfitOf(p.side, p.entryPrice, price, p.units)
  {
    if p.side == Buy {
      assert p.Gain(price) == price - p.entryPrice;
    } else {
      assert p.Gain(price) == p.entryPrice - price;
    }
  }

  /** At or beyond the stop an open position is closed as a whole, whatever its targets and its trail say; nothing
      else is ever saved there, and without the exchange's consent nothing is. */
  lemma StopClosesThePosition(p: LivePosition, price: real, atr: Option<real>)
    requires p.IsOpen() && AtStop(p, price)
    ensures MonitorOne(p, price, atr, false) == Failed(ExchangeFailed, false)
    ensures p.Valid() && price > 0.0 ==> MonitorOne(p, price, atr, true).Saved?
    ensures !MonitorOne(p, price, atr, true).Saved? ==> MonitorOne(p, price, atr, true) == Failed(InvalidPosition, true)
    ensures MonitorOne(p, price, atr, true).Saved? ==>
      IsClosedWhole(p, MonitorOne(p, price, atr, true).position, price, SL_HIT)
  {
    ProfitAtPrice(p, price);
    hide LivePosition.PnlAt;
    hide ProfitOf;
    hide RiskMultiple;
    hide ComputeTrailOffset;
  }

  /** A target that closes all of the position: the first one with its whole share, or the third one when neither
      of the others counts. */
  predicate TargetClosesAll(p: LivePosition, price: real) {
    if FirstDue(p, price) then p.tp1Pct >= 1.0
    else !HasRisenTo(p.side, price, p.tp2Price) && HasRisenTo(p.side, price, p.tp3Price)
  }

  lemma TargetClosesThePosition(p: LivePosition, price: real, atr: Option<real>)
    requires p.Valid() && p.IsOpen() && price > 0.0 && !AtStop(p, price) && TargetClosesAll(p, price)
    ensures MonitorOne(p, price, atr, false) == Failed(ExchangeFailed, false)
    ensures MonitorOne(p, price, atr, true).Saved?
      && IsClosedWhole(p, MonitorOne(p, price, atr, true).position, price, TP_HIT)
  {
    ProfitAtPrice(p, price);
    hide LivePosition.PnlAt;
    hide ProfitOf;
    hide RiskMultiple;
    hide ComputeTrailOffset;
  }

  /** The status tells why a position was closed. */
  lemma StatusTellsWhy(p: LivePosition, price: real, atr: Option<real>, accepted: bool)
    requires p.Valid() && p.IsOpen() && price > 0.0
    ensures var o := MonitorOne(p, price, atr, accepted);
      (o.Saved? && o.position.status == SL_HIT <==> accepted && AtStop(p, price))
      && (o.Saved? && o.position.status == TP_HIT <==> accepted && !AtStop(p, price) && TargetClosesAll(p, price))
      && !(o.Saved? && o.position.status == CLOSED)
  {
    hide RiskMultiple;
    hide ComputeTrailOffset;
    hide CloseUnits;
  }

  // ---------- Closing a part ----------

  /** The share that a target closes: the first one's while it counts, the second one's otherwise. */
  function ShareDue(p: LivePosition, price: real): Option<real> {
    if FirstDue(p, price) then if p.tp1Pct < 1.0 then Some(p.tp1Pct) else None
    else if HasRisenTo(p.side, price, p.tp2Price) then Some(p.tp2Pct)
    else None
  }

  /** q is p with this share of its units gone, up to the rounding to 10^-8, and otherwise as it was. */
  predicate HasClosedShare(p: LivePosition, q: LivePosition, price: real, share: real) {
    -0.000000005 <= p.units - q.units - Prod(p.units, share) <= 0.000000005 && q.units > 0.0
    && q == p.(units := q.units, currentPrice := price, realizedPnl := None, status := PARTIALLY_CLOSED)
  }

  lemma DueShareIsDecided(p: LivePosition, price: real, atr: Option<real>)
    requires p.Valid() && p.IsOpen() && !AtStop(p, price) && ShareDue(p, price).Some?
    ensures Evaluate(p, price, atr).PartialClose? && Evaluate(p, price, atr).pct == ShareDue(p, price).value
  {
    hide RiskMultiple;
    hide ComputeTrailOffset;
  }

  lemma PartialCloseStep(p: LivePosition, price: real, atr: Option<real>, share: real)
    requires p.Valid() && price > 0.0 && Evaluate(p, price, atr).PartialClose?
    requires Evaluate(p, price, atr).pct == share
    ensures MonitorOne(p, price, atr, false) == Failed(ExchangeFailed, false)
    ensures var o, rest := MonitorOne(p, price, atr, true), p.units - CloseUnits(p.units, share);
      if o.Saved? then rest > 0.0 && o.position == p.(units := rest, currentPrice := price, realizedPnl := None,
                                                      status := PARTIALLY_CLOSED)
      else o == Failed(InvalidPosition, true) && rest <= 0.0
  {
    hide Evaluate;
    hide CloseUnits;
  }

  /** A target's share is closed and the rest is saved, unless the rounding leaves no rest: then the order has been
      sent and the step fails. */
  lemma TargetClosesItsShare(p: LivePosition, price: real, atr: Option<real>)
    requires p.Valid() && p.IsOpen() && price > 0.0 && !AtStop(p, price) && ShareDue(p, price).Some?
    ensures MonitorOne(p, price, atr, false) == Failed(ExchangeFailed, false)
    ensures var o, share := MonitorOne(p, price, atr, true), ShareDue(p, price).value;
      if o.Saved? then HasClosedShare(p, o.position, price, share)
      else o == Failed(InvalidPosition, true) && p.units - Prod(p.units, share) <= 0.000000005
  {
    hide Evaluate;
    hide MonitorOne;
    hide CloseUnits;
    hide Prod;
    DueShareIsDecided(p, price, atr);
    PartialCloseStep(p, price, atr, ShareDue(p, price).value);
    RoundedShare(p.units, ShareDue(p, price).value);
  }

  // ---------- Moving the stop ----------

  /** How far behind the price the trail runs: the stored offset, else one and a half ATRs. */
  function TrailDistance(p: LivePosition, atr: Option<real>): real {
    if p.trailOffset.Some? && p.trailOffset.value != 0.0 then p.trailOffset.value
    else if atr.Some? && atr.value > 0.0 then 1.5 * atr.value
    else if p.atrAtEntry.Some? && p.atrAtEntry.value > 0.0 then 1.5 * p.atrAtEntry.value
    else 0.0
  }

  /** The stop behind the price, if that is tighter than the stop there is. */
  predicate Tightens(p: LivePosition, stop: real) {
    p.slPrice.None? || if p.side == Buy then stop > p.slPrice.value else stop < p.slPrice.value
  }

  function Behind(side: OrderSide, price: real, distance: real): real {
    if side == Buy then price - distance else price + distance
  }

  /** A running trail keeps the stop at its distance behind the best price seen: it moves the stop when that is
      tighter and otherwise leaves everything as it is. */
  lemma TrailFollowsThePrice(p: LivePosition, price: real, atr: Option<real>, accepted: bool)
    requires p.Valid() && p.IsOpen() && price > 0.0 && p.breakEvenActivated && p.trailActivated
    requires !AtStop(p, price) && !AnyTargetDue(p, price) && Behind(p.side, price, TrailDistance(p, atr)) > 0.0
    ensures var stop := Behind(p.side, price, TrailDistance(p, atr));
      MonitorOne(p, price, atr, accepted)
      == if Tightens(p, stop)
         then Saved(p.(slPrice := Some(stop), currentPrice := price, realizedPnl := None, status := OPEN))
         else Held
  {
    hide RiskMultiple;
  }

  /** Where no close is due nothing is sent: whether the exchange would have accepted an order makes no difference,
      and a step that fails has not reached it. */
  lemma StopMovesSendNothing(p: LivePosition, price: real, atr: Option<real>)
    requires p.IsOpen() && p.units > 0.0 && !AtStop(p, price) && !AnyTargetDue(p, price)
    ensures MonitorOne(p, price, atr, true) == MonitorOne(p, price, atr, false)
    ensures MonitorOne(p, price, atr, true).Failed? ==>
      MonitorOne(p, price, atr, true) == Failed(InvalidPosition, false)
  {
    hide RiskMultiple;
    hide ComputeTrailOffset;
  }

  lemma GainReached(p: LivePosition, price: real, r: real)
    requires p.Valid() && r > 0.0
    ensures RiskMultiple(p, price) >= r <==> HasGained(p, price, r)
  {
    StopRatchet.RiskMultipleMeaning(p, price, r);
  }

  /** Between stop and targets, one entry ATR of gain puts the stop at entry, once. */
  lemma GainMovesStopToEntry(p: LivePosition, price: real, atr: Option<real>, accepted: bool)
    requires p.Valid() && p.IsOpen() && price > 0.0 && !AtStop(p, price) && !AnyTargetDue(p, price)
    requires !p.breakEvenActivated && HasGained(p, price, 1.0)
    ensures MonitorOne(p, price, atr, accepted)
      == Saved(p.(slPrice := Some(p.entryPrice), currentPrice := price, realizedPnl := None, status := OPEN,
                  breakEvenActivated := true))
  {
    GainReached(p, price, 1.0);
    hide RiskMultiple;
  }

  /** With the stop at entry, two entry ATRs of gain start the trail one and a half ATRs behind the price. */
  lemma GainStartsTrail(p: LivePosition, price: real, atr: Option<real>, accepted: bool)
    requires p.Valid() && p.IsOpen() && price > 0.0 && !AtStop(p, price) && !AnyTargetDue(p, price)
    requires p.breakEvenActivated && !p.trailActivated && HasGained(p, price, 2.0) && (atr.Some? ==> atr.value >= 0.0)
    requires Behind(p.side, price, 1.5 * StopRatchet.EffectiveAtr(p, atr)) > 0.0
    ensures MonitorOne(p, price, atr, accepted)
      == Saved(p.(slPrice := Some(Behind(p.side, price, 1.5 * StopRatchet.EffectiveAtr(p, atr))), currentPrice := price,
                  realizedPnl := None, status := OPEN, trailActivated := true,
                  trailOffset := if p.trailOffset.Some? then p.trailOffset
                                 else if atr.Some? && atr.value > 0.0 then Some(1.5 * atr.value) else p.atrAtEntry))
  {
    GainReached(p, price, 2.0);
    hide RiskMultiple;
  }

  /** What a step did to p, seen on the position it saved. */
  datatype Deed = Nothing | ClosedAll | ClosedPart | BrokeEven | StartedTrail | Tightened

  function DeedOf(p: LivePosition, q: LivePosition): Deed {
    if q.status == SL_HIT || q.status == TP_HIT then ClosedAll
    else if q.status == PARTIALLY_CLOSED then ClosedPart
    else if q.breakEvenActivated && !p.breakEvenActivated then BrokeEven
    else if q.trailActivated && !p.trailActivated then StartedTrail
    else Tightened
  }

  /** Nothing is done to an open position exactly when no close is due, no stop move is due for the first time, and
      no running trail would tighten the stop. */
  lemma HeldIff(p: LivePosition, price: real, atr: Option<real>, accepted: bool)
    requires p.Valid() && p.IsOpen()
    ensures MonitorOne(p, price, atr, accepted) == Held <==>
      && !AtStop(p, price) && !AnyTargetDue(p, price)
      && (!p.breakEvenActivated ==> !HasGained(p, price, 1.0))
      && (!p.trailActivated ==> !HasGained(p, price, 2.0))
      && (p.trailActivated ==> !Tightens(p, Behind(p.side, price, TrailDistance(p, atr))))
  {
    GainReached(p, price, 1.0);
    GainReached(p, price, 2.0);
    hide RiskMultiple;
    hide CloseUnits;
  }
}
