/** Live positions and the stateless manager that decides what to do with one at a given price. */
module Positions {
  import opened Common

  datatype OrderSide = Buy | Sell

  datatype Status = OPEN | PARTIALLY_CLOSED | CLOSED | SL_HIT | TP_HIT

  datatype LivePosition = LivePosition(
    id: string, symbol: string, side: OrderSide, units: real, entryPrice: real, currentPrice: real,
    slPrice: Option<real>, tpPrice: Option<real>, tp2Price: Option<real>, tp3Price: Option<real>,
    trailActivated: bool, trailOffset: Option<real>, breakEvenActivated: bool, atrAtEntry: Option<real>,
    initialUnits: real, tp1Pct: real, tp2Pct: real, realizedPnl: Option<real>, status: Status)
  {
    /** The constructor's checks; building a position that fails one raises. */
    predicate Valid() {
      units > 0.0 && entryPrice > 0.0 && currentPrice > 0.0
      && PositiveOrNone(slPrice) && PositiveOrNone(tp2Price) && PositiveOrNone(tp3Price) && PositiveOrNone(trailOffset)
      && 0.0 <= tp1Pct <= 1.0 && 0.0 <= tp2Pct <= 1.0
    }

    predicate IsOpen() {
      status == OPEN || status == PARTIALLY_CLOSED
    }

    predicate IsSlHit(price: real) {
      slPrice.Some? && if side == Buy then price <= slPrice.value else price >= slPrice.value
    }

    predicate IsTpHit(price: real, target: Option<real>) {
      target.Some? && if side == Buy then price >= target.value else price <= target.value
    }

    /** Gain per unit at a price. */
    function Gain(price: real): real {
      if side == Buy then price - entryPrice else entryPrice - price
    }

    function PnlAt(price: real): real {
      Gain(price) * units
    }

    function RiskAmount(): Option<real> {
      if HasEntryAtr() then Some(atrAtEntry.value * units) else None
    }

    predicate HasEntryAtr() {
      atrAtEntry.Some? && atrAtEntry.value > 0.0
    }
  }

  predicate PositiveOrNone(x: Option<real>) {
    x.Some? ==> x.value > 0.0
  }

  /** A truthy optional decimal: present and not zero. */
  predicate Truthy(x: Option<real>) {
    x.Some? && x.value != 0.0
  }

  // ---------- PositionManager ----------

  datatype Decision =
    | Hold
    | Close(closeStatus: Status)
    | PartialClose(pct: real, tpLevel: nat)
    | ActivateBreakEven(newSl: real)
    | ActivateTrail(newSl: real)
    | UpdateSl(newSl: real)

  const BE_ACTIVATION_R := 1.0
  const TRAIL_ACTIVATION_R := 2.0
  const TRAIL_OFFSET_MULTIPLE := 1.5

  function RiskMultiple(p: LivePosition, price: real): real {
    if p.RiskAmount().None? || p.RiskAmount().value <= 0.0 then 0.0 else p.PnlAt(price) / p.RiskAmount().value
  }

  function ComputeTrailOffset(p: LivePosition, atr: Option<real>): real {
    if atr.Some? && atr.value > 0.0 then atr.value * TRAIL_OFFSET_MULTIPLE
    else if p.HasEntryAtr() then p.atrAtEntry.value * TRAIL_OFFSET_MULTIPLE
    else 0.0
  }

  function TrailingSl(p: LivePosition, price: real, offset: real): real {
    if p.side == Buy then price - offset else price + offset
  }

  /** The first stage that applies decides: stop loss, TP1, TP2, TP3, break even, trail, trail update. */
  function Evaluate(p: LivePosition, price: real, atr: Option<real>): Decision {
    if !p.IsOpen() then Hold
    else if p.IsSlHit(price) then Close(SL_HIT)
    else if p.status != PARTIALLY_CLOSED && p.IsTpHit(price, p.tpPrice) && p.units > 0.0 then
      if p.tp1Pct >= 1.0 then Close(TP_HIT) else PartialClose(p.tp1Pct, 1)
    else if p.IsTpHit(price, p.tp2Price) && p.units > 0.0 then PartialClose(p.tp2Pct, 2)
    else if p.IsTpHit(price, p.tp3Price) && p.units > 0.0 then Close(TP_HIT)
    else if !p.breakEvenActivated && RiskMultiple(p, price) >= BE_ACTIVATION_R then ActivateBreakEven(p.entryPrice)
    else if !p.trailActivated && RiskMultiple(p, price) >= TRAIL_ACTIVATION_R then
      ActivateTrail(TrailingSl(p, price, ComputeTrailOffset(p, atr)))
    else if p.trailActivated then
      var offset := if Truthy(p.trailOffset) then p.trailOffset.value else ComputeTrailOffset(p, atr);
      var newSl := TrailingSl(p, price, offset);
      if p.slPrice.None? || (if p.side == Buy then newSl > p.slPrice.value else newSl < p.slPrice.value)
        then UpdateSl(newSl)
      else Hold
    else Hold
  }

  // ---------- What a monitoring step does to one position ----------

  datatype MonitorError = PriceUnavailable | ExchangeFailed | InvalidPosition

  /** `sent` tells whether an order had reached the exchange when the step failed. */
  datatype Outcome = Held | Saved(position: LivePosition) | Failed(error: MonitorError, sent: bool)

  function Construct(p: LivePosition, sent: bool): Outcome {
    if p.Valid() then Saved(p) else Failed(InvalidPosition, sent)
  }

  /** Units are closed in multiples of 10^-8. */
  function CloseUnits(units: real, pct: real): real {
    RoundHalfEven(units * pct * 100000000.0) as real / 100000000.0
  }

  lemma RoundedShare(units: real, share: real)
    ensures -0.000000005 <= CloseUnits(units, share) - Prod(units, share) <= 0.000000005
  {
    hide RoundHalfEven;
  }

  function ClosedPosition(p: LivePosition, price: real, status: Status): LivePosition {
    LivePosition(p.id, p.symbol, p.side, p.units, p.entryPrice, price, p.slPrice, p.tpPrice, None, None,
                 false, None, false, None, p.units, 0.5, 0.25, Some(p.PnlAt(price)), status)
  }

  function PartiallyClosedPosition(p: LivePosition, price: real, closeUnits: real): LivePosition {
    p.(units := p.units - closeUnits, currentPrice := price, realizedPnl := None,
       status := if p.units - closeUnits > 0.0 then PARTIALLY_CLOSED else CLOSED)
  }

  function MovedStop(p: LivePosition, price: real, atr: Option<real>, d: Decision): LivePosition
    requires d.ActivateBreakEven? || d.ActivateTrail? || d.UpdateSl?
  {
    p.(currentPrice := price, realizedPnl := None, status := OPEN,
       slPrice := if d.newSl != 0.0 then Some(d.newSl) else p.slPrice,
       trailActivated := d.ActivateTrail? || p.trailActivated,
       trailOffset := if !d.ActivateTrail? || Truthy(p.trailOffset) then p.trailOffset
                      else if Truthy(atr) then Some(atr.value * 1.5) else p.atrAtEntry,
       breakEvenActivated := d.ActivateBreakEven? || p.breakEvenActivated)
  }

  /** One position of one monitoring pass, given the exchange's answer to the order, if one is sent. */
  function MonitorOne(p: LivePosition, price: real, atr: Option<real>, accepted: bool): Outcome {
    var d := Evaluate(p, price, atr);
    match d
    case Hold => Held
    case Close(status) =>
      if !accepted then Failed(ExchangeFailed, false) else Construct(ClosedPosition(p, price, status), true)
    case PartialClose(pct, _) =>
      if !accepted then Failed(ExchangeFailed, false)
      else Construct(PartiallyClosedPosition(p, price, CloseUnits(p.units, pct)), true)
    case _ => Construct(MovedStop(p, price, atr, d), false)
  }
}

/** The stop-loss ratchet: over whole monitoring runs the stop only tightens. */
module StopRatchet {
  import opened Common
  import opened Positions

  /** A stop at least as close to the market; no stop at all is the loosest. */
  predicate AtLeastAsTight(side: OrderSide, before: Option<real>, after: Option<real>) {
    before.None? || (after.Some? && if side == Buy then after.value >= before.value else after.value <= before.value)
  }

  /** Not on the losing side of entry: closing at the stop loses nothing. */
  predicate LocksInEntry(p: LivePosition) {
    p.slPrice.Some? && p.Gain(p.slPrice.value) >= 0.0
  }

  /** What every run keeps: the trail starts after break even; break even puts the stop at entry and the
      trail keeps it there or better; before break even the stop is absent or on the losing side. */
  ghost predicate Safe(p: LivePosition) {
    p.Valid()
    && (p.IsOpen() ==> (
          (p.trailActivated ==> p.breakEvenActivated && LocksInEntry(p))
          && (p.breakEvenActivated && !p.trailActivated ==> p.slPrice == Some(p.entryPrice))
          && (!p.breakEvenActivated && p.slPrice.Some? ==> p.Gain(p.slPrice.value) <= 0.0)))
  }

  /** q is p later: the same trade, no larger, its stop no looser, its flags not withdrawn while open. */
  ghost predicate Ratcheted(p: LivePosition, q: LivePosition) {
    q.id == p.id && q.symbol == p.symbol && q.side == p.side && q.entryPrice == p.entryPrice
    && q.units <= p.units
    && AtLeastAsTight(p.side, p.slPrice, q.slPrice)
    && (q.IsOpen() ==> (
          p.IsOpen() && (p.breakEvenActivated ==> q.breakEvenActivated) && (p.trailActivated ==> q.trailActivated)
          && q.atrAtEntry == p.atrAtEntry))
  }

  /** The bound on a supplied ATR: at most four thirds of the entry ATR. No ATR is always fine. */
  predicate AtrWithinBound(p: LivePosition, atr: Option<real>) {
    atr.Some? && p.HasEntryAtr() ==> 3.0 * atr.value <= 4.0 * p.atrAtEntry.value
  }

  // ---------- Risk multiples without division ----------

  lemma RiskMultipleMeaning(p: LivePosition, price: real, r: real)
    requires p.Valid() && r > 0.0
    ensures RiskMultiple(p, price) >= r <==> p.HasEntryAtr() && p.Gain(price) >= r * p.atrAtEntry.value
  {
    if p.HasEntryAtr() {
      var g, a, u := p.Gain(price), p.atrAtEntry.value, p.units;
      PositiveProduct(a, u);
      QuotientAtLeast(g * u, a * u, r);
      assert r * (a * u) == r * a * u;
      OrderTimes(g, r * a, u);
    }
  }

  /** When break even fires: the position is open, no close or take profit comes first, and the gain has
      reached one entry ATR, which the position must know. */
  lemma BreakEvenExactly(p: LivePosition, price: real, atr: Option<real>)
    requires p.Valid()
    ensures Evaluate(p, price, atr).ActivateBreakEven? <==>
      p.IsOpen() && !p.IsSlHit(price) && !(p.status == OPEN && p.IsTpHit(price, p.tpPrice))
      && !p.IsTpHit(price, p.tp2Price) && !p.IsTpHit(price, p.tp3Price)
      && !p.breakEvenActivated && p.HasEntryAtr() && p.Gain(price) >= p.atrAtEntry.value
  {
    RiskMultipleMeaning(p, price, 1.0);
  }

  // ---------- One step ----------

  /** The stop set when the trail starts is on the winning side of entry. */
  lemma TrailStartsAboveEntry(p: LivePosition, price: real, atr: Option<real>)
    requires p.Valid() && AtrWithinBound(p, atr) && RiskMultiple(p, price) >= TRAIL_ACTIVATION_R
    ensures p.Gain(TrailingSl(p, price, ComputeTrailOffset(p, atr))) >= 0.0
  {
    RiskMultipleMeaning(p, price, 2.0);
  }

  lemma StepRatchets(p: LivePosition, price: real, atr: Option<real>, accepted: bool)
    requires Safe(p) && AtrWithinBound(p, atr)
    ensures var o := MonitorOne(p, price, atr, accepted);
      o.Saved? ==> Safe(o.position) && Ratcheted(p, o.position)
  {
    hide CloseUnits;
    var d := Evaluate(p, price, atr);
    match d
    case Hold =>
    case Close(_) =>
    case PartialClose(pct, _) =>
      hide Evaluate;
      CloseUnitsAreNonnegative(p.units, pct);
    case _ =>
      StopMoveRatchets(p, price, atr);
  }

  lemma StopMoveRatchets(p: LivePosition, price: real, atr: Option<real>)
    requires Safe(p) && AtrWithinBound(p, atr)
    requires var d := Evaluate(p, price, atr); d.ActivateBreakEven? || d.ActivateTrail? || d.UpdateSl?
    ensures var q := MovedStop(p, price, atr, Evaluate(p, price, atr));
      q.Valid() ==> Safe(q) && Ratcheted(p, q)
  {
    hide RiskMultiple;
    var d := Evaluate(p, price, atr);
    if d.ActivateTrail? {
      TrailStartsAboveEntry(p, price, atr);
      assert p.breakEvenActivated by {
        RiskMultipleMeaning(p, price, 1.0);
        RiskMultipleMeaning(p, price, 2.0);
      }
    }
  }

  lemma CloseUnitsAreNonnegative(units: real, pct: real)
    requires units > 0.0 && pct >= 0.0
    ensures CloseUnits(units, pct) >= 0.0
  {
    if pct > 0.0 {
      PositiveProduct(units, pct);
    }
  }

  /** Once break even has fired, closing at the stop never loses. */
  lemma StopAfterBreakEvenNeverLoses(p: LivePosition)
    requires Safe(p) && p.IsOpen() && p.breakEvenActivated
    ensures p.slPrice.Some? && p.PnlAt(p.slPrice.value) >= 0.0
  {
    var g := p.Gain(p.slPrice.value);
    if g > 0.0 {
      PositiveProduct(g, p.units);
    }
  }

  // ---------- Where the bound comes from ----------

  /** The ATR the trail really uses: the supplied one if positive, the entry one otherwise. */
  function EffectiveAtr(p: LivePosition, atr: Option<real>): real
    requires p.HasEntryAtr()
  {
    if atr.Some? && atr.value > 0.0 then atr.value else p.atrAtEntry.value
  }

  /** Break even has fired, the trail has not. */
  predicate AwaitsTrail(p: LivePosition) {
    p.Valid() && p.IsOpen() && p.HasEntryAtr() && p.breakEvenActivated && !p.trailActivated
    && p.slPrice == Some(p.entryPrice)
  }

  predicate TakesProfit(p: LivePosition, price: real) {
    (p.status == OPEN && p.IsTpHit(price, p.tpPrice)) || p.IsTpHit(price, p.tp2Price) || p.IsTpHit(price, p.tp3Price)
  }

  /** The first price, two entry ATRs from entry, at which the trail can start. */
  function TrailEdge(p: LivePosition): real
    requires p.HasEntryAtr()
  {
    if p.side == Buy then p.entryPrice + 2.0 * p.atrAtEntry.value else p.entryPrice - 2.0 * p.atrAtEntry.value
  }

  lemma TrailStartsExactly(p: LivePosition, price: real, atr: Option<real>)
    requires AwaitsTrail(p)
    ensures Evaluate(p, price, atr).ActivateTrail?
      <==> p.Gain(price) >= 2.0 * p.atrAtEntry.value && !TakesProfit(p, price)
    ensures Evaluate(p, price, atr).ActivateTrail? ==>
      p.Gain(Evaluate(p, price, atr).newSl) == p.Gain(price) - 1.5 * EffectiveAtr(p, atr)
  {
    RiskMultipleMeaning(p, price, 2.0);
    hide RiskMultiple;
  }

  /** The bound is exact, for purchases and sales, with any take profits: starting the trail keeps the stop at
      entry or better at every price exactly when the ATR in use is at most four thirds of the entry ATR - or
      when the trail cannot start at all, because the edge is no price or a take profit comes before it. */
  lemma TrailNeverLoosensIffAtrWithinBound(p: LivePosition, atr: Option<real>)
    requires AwaitsTrail(p)
    ensures (forall price ::
             price > 0.0 && Evaluate(p, price, atr).ActivateTrail? ==> p.Gain(Evaluate(p, price, atr).newSl) >= 0.0)
      <==> 3.0 * EffectiveAtr(p, atr) <= 4.0 * p.atrAtEntry.value || TrailEdge(p) <= 0.0 || TakesProfit(p, TrailEdge(p))
  {
    hide Evaluate;
    forall price | price > 0.0
      ensures Evaluate(p, price, atr).ActivateTrail?
        <==> p.Gain(price) >= 2.0 * p.atrAtEntry.value && !TakesProfit(p, price)
      ensures Evaluate(p, price, atr).ActivateTrail? ==>
        p.Gain(Evaluate(p, price, atr).newSl) == p.Gain(price) - 1.5 * EffectiveAtr(p, atr)
    {
      TrailStartsExactly(p, price, atr);
    }
    var edge := TrailEdge(p);
    if edge > 0.0 && !TakesProfit(p, edge) {
      assert Evaluate(p, edge, atr).ActivateTrail?;
    }
  }

  /** The trail starts one and a half effective ATRs away. With a positive ATR supplied that distance is stored,
      and the next evaluation at the same price leaves the stop alone; without one the stored offset is a single
      entry ATR, and the next evaluation tightens the stop by the other half. */
  lemma TrailTightensAtTheSamePriceIff(p: LivePosition, price: real, atr: Option<real>)
    requires p.Valid() && Evaluate(p, price, atr).ActivateTrail? && p.HasEntryAtr() && !Truthy(p.trailOffset)
    requires Evaluate(p, price, atr).newSl > 0.0 && !p.IsTpHit(price, p.tpPrice) && (atr.Some? ==> atr.value >= 0.0)
    ensures var p' := MovedStop(p, price, atr, Evaluate(p, price, atr));
      p'.slPrice == Some(TrailingSl(p, price, 1.5 * EffectiveAtr(p, atr)))
      && (Evaluate(p', price, atr).UpdateSl? <==> !(atr.Some? && atr.value > 0.0))
      && Evaluate(p', price, atr) == if atr.Some? && atr.value > 0.0 then Hold
                                     else UpdateSl(TrailingSl(p, price, p.atrAtEntry.value))
  {
    RiskMultipleMeaning(p, price, BE_ACTIVATION_R);
    RiskMultipleMeaning(p, price, TRAIL_ACTIVATION_R);
    hide RiskMultiple;
  }

  // ---------- Positions without an entry ATR ----------

  /** A position that does not know its entry ATR never breaks even, never trails and keeps its stop,
      at any price and with any ATR supplied. */
  lemma WithoutEntryAtrTheStopNeverMoves(p: LivePosition, price: real, atr: Option<real>, accepted: bool)
    requires p.Valid() && !p.HasEntryAtr() && !p.trailActivated
    ensures var o := MonitorOne(p, price, atr, accepted);
      o.Saved? ==> o.position.slPrice == p.slPrice && !o.position.trailActivated && !o.position.HasEntryAtr()
                   && o.position.breakEvenActivated == (o.position.IsOpen() && p.breakEvenActivated)
  {
  }
}

/** When the take profits fire, and what a partial close leaves. */
module TakeProfits {
  import opened Common
  import opened Positions
  import opened StopRatchet

  predicate FiresFirst(d: Decision) {
    d.PartialClose? && d.tpLevel == 1
  }

  predicate MovesStop(d: Decision) {
    d.ActivateBreakEven? || d.ActivateTrail? || d.UpdateSl?
  }

  /** When the first take profit closes a part: never after a partial close, as long as the status tells. */
  lemma FirstTakeProfitFiresExactly(p: LivePosition, price: real, atr: Option<real>)
    requires p.Valid()
    ensures FiresFirst(Evaluate(p, price, atr)) <==>
      p.status == OPEN && !p.IsSlHit(price) && p.IsTpHit(price, p.tpPrice) && p.tp1Pct < 1.0
  {
    hide RiskMultiple;
    hide ComputeTrailOffset;
  }

  /** A saved step leaves the status OPEN exactly when it moved the stop; sides and first target never change. */
  lemma StepReopensIff(p: LivePosition, price: real, atr: Option<real>, accepted: bool)
    ensures var o := MonitorOne(p, price, atr, accepted);
      o.Saved? ==> (o.position.status == OPEN <==> MovesStop(Evaluate(p, price, atr)))
                   && o.position.Valid() && o.position.side == p.side && o.position.tpPrice == p.tpPrice
                   && (o.position.IsOpen() ==> o.position.tp1Pct == p.tp1Pct)
  {
    hide RiskMultiple;
    hide ComputeTrailOffset;
    hide CloseUnits;
  }

  // ---------- Runs of one position ----------

  datatype Input = Input(price: real, atr: Option<real>, accepted: bool)

  function Outcome(p: LivePosition, i: Input): Positions.Outcome {
    MonitorOne(p, i.price, i.atr, i.accepted)
  }

  /** The stored position after these steps; a step that holds or fails leaves it as it was. */
  function After(p: LivePosition, steps: seq<Input>): LivePosition {
    if steps == [] then p
    else
      var q := After(p, Init(steps));
      if Outcome(q, Last(steps)).Saved? then Outcome(q, Last(steps)).position else q
  }

  predicate SavedAt(p: LivePosition, steps: seq<Input>, k: nat)
    requires k < |steps|
  {
    Outcome(After(p, steps[..k]), steps[k]).Saved?
  }

  predicate StopMovedAt(p: LivePosition, steps: seq<Input>, k: nat)
    requires k < |steps|
  {
    SavedAt(p, steps, k) && MovesStop(Evaluate(After(p, steps[..k]), steps[k].price, steps[k].atr))
  }

  /** The last step that was saved moved the stop. */
  ghost predicate LastSaveMovedStop(p: LivePosition, steps: seq<Input>) {
    exists k :: 0 <= k < |steps| && StopMovedAt(p, steps, k) && forall j :: k < j < |steps| ==> !SavedAt(p, steps, j)
  }

  lemma LastSaveOfPrefix(p: LivePosition, steps: seq<Input>)
    requires steps != []
    ensures LastSaveMovedStop(p, steps) <==>
      if SavedAt(p, steps, |steps| - 1) then StopMovedAt(p, steps, |steps| - 1) else LastSaveMovedStop(p, Init(steps))
  {
    hide After;
    hide Outcome;
    hide Evaluate;
    var n := |steps| - 1;
    assert forall j :: 0 <= j < n ==> Init(steps)[..j] == steps[..j] && Init(steps)[j] == steps[j];
    if LastSaveMovedStop(p, Init(steps)) && !SavedAt(p, steps, n) {
      var k :| 0 <= k < n && StopMovedAt(p, Init(steps), k) && forall j :: k < j < n ==> !SavedAt(p, Init(steps), j);
      assert StopMovedAt(p, steps, k);
      assert forall j :: k < j < n ==> SavedAt(p, steps, j) == SavedAt(p, Init(steps), j);
    }
    if LastSaveMovedStop(p, steps) && !SavedAt(p, steps, n) {
      var k :| 0 <= k < |steps| && StopMovedAt(p, steps, k) && forall j :: k < j < |steps| ==> !SavedAt(p, steps, j);
      assert StopMovedAt(p, Init(steps), k);
      assert forall j :: k < j < n ==> SavedAt(p, steps, j) == SavedAt(p, Init(steps), j);
    }
  }

  lemma {:induction false} ReopenedIff(p: LivePosition, steps: seq<Input>)
    requires p.Valid() && p.status != OPEN
    ensures var q := After(p, steps);
      (q.status == OPEN <==> LastSaveMovedStop(p, steps))
      && q.Valid() && q.side == p.side && q.tpPrice == p.tpPrice && (q.IsOpen() ==> q.tp1Pct == p.tp1Pct)
  {
    hide Evaluate;
    hide MonitorOne;
    if steps != [] {
      ReopenedIff(p, Init(steps));
      LastSaveOfPrefix(p, steps);
      var q, i := After(p, Init(steps)), Last(steps);
      assert steps[..|steps| - 1] == Init(steps);
      StepReopensIff(q, i.price, i.atr, i.accepted);
      if !q.IsOpen() {
        ClosedStaysClosed(q, i);
      }
    }
  }

  lemma ClosedStaysClosed(p: LivePosition, i: Input)
    requires !p.IsOpen()
    ensures Outcome(p, i) == Held
  {
  }

  /** Over every run that begins after a partial close, the first take profit fires again exactly when the last
      saved step moved the stop - break even, trail or trailing update - and the price is at the target but not
      at the stop. */
  lemma FirstTakeProfitFiresAgainIff(p: LivePosition, steps: seq<Input>, price: real, atr: Option<real>)
    requires p.Valid() && p.status == PARTIALLY_CLOSED
    ensures FiresFirst(Evaluate(After(p, steps), price, atr)) <==>
      LastSaveMovedStop(p, steps) && p.IsTpHit(price, p.tpPrice) && p.tp1Pct < 1.0 && !After(p, steps).IsSlHit(price)
  {
    ReopenedIff(p, steps);
    FirstTakeProfitFiresExactly(After(p, steps), price, atr);
    hide Evaluate;
    hide After;
  }

  /** This does happen: a stop move puts the status back to OPEN, and the first take profit fires a second time: half of
      the position goes at 130, break even fires at 115, and half of the rest goes at 130 again. */
  lemma FirstTakeProfitCanFireTwice()
    ensures exists p: LivePosition :: Safe(p) && FiresTwice(p)
  {
    var p := LivePosition("p", "BTC/USDT", Buy, 1.0, 100.0, 100.0, Some(90.0), Some(130.0), None, None,
                          false, None, false, Some(10.0), 1.0, 0.5, 0.25, None, OPEN);
    var q := MonitorOne(p, 130.0, None, true).position;
    assert CloseUnits(1.0, 0.5) == 0.5;
    assert q == p.(units := 0.5, currentPrice := 130.0, status := PARTIALLY_CLOSED);
    RiskMultipleMeaning(q, 115.0, 1.0);
    assert Evaluate(q, 115.0, None) == ActivateBreakEven(100.0);
    assert FiresTwice(p);
  }

  predicate FiresTwice(p: LivePosition) {
    var o := MonitorOne(p, 130.0, None, true);
    Evaluate(p, 130.0, None) == PartialClose(p.tp1Pct, 1) && o.Saved?
    && var o' := MonitorOne(o.position, 115.0, None, true);
    o'.Saved? && Evaluate(o'.position, 130.0, None) == PartialClose(p.tp1Pct, 1)
  }

  /** A partial close is recorded exactly when it leaves something; when the quantized amount is everything,
      the order has been sent but building the new position raises and the old one stays stored. */
  lemma PartialCloseIsRecordedIffSomethingRemains(p: LivePosition, price: real, atr: Option<real>)
    requires p.Valid() && price > 0.0 && Evaluate(p, price, atr).PartialClose?
    ensures var amount := CloseUnits(p.units, Evaluate(p, price, atr).pct);
      MonitorOne(p, price, atr, true)
        == if amount < p.units then Saved(PartiallyClosedPosition(p, price, amount)) else Failed(InvalidPosition, true)
  {
    hide CloseUnits;
    hide RiskMultiple;
  }

  /** Only dust or a full percentage can be swallowed whole. */
  lemma HalfOfAnythingButDustRemains(units: real, pct: real)
    requires units >= 0.00000002 && 0.0 <= pct <= 0.5
    ensures CloseUnits(units, pct) < units
  {
    AtMostHalf(units, pct);
    RoundedShare(units, pct);
    hide CloseUnits;
    hide Prod;
  }

  lemma AtMostHalf(units: real, pct: real)
    requires units > 0.0 && pct <= 0.5
    ensures Prod(units, pct) <= 0.5 * units
  {
    OrderTimes(0.5, pct, units);
  }
}
