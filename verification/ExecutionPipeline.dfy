/** The risk engine and the portfolio manager: the gates a trade has to pass. */
module RiskGates {
  import opened Common
  import opened Positions

  datatype RiskVerdict =
    | APPROVED | REJECTED_MAX_LOSSES | REJECTED_MAX_POSITIONS | REJECTED_SYMBOL_EXPOSURE
    | REJECTED_DAILY_DRAWDOWN | REJECTED_TOTAL_EXPOSURE

  datatype RiskLimits = RiskLimits(maxConsecutiveLosses: int, maxOpenPositions: int, maxSymbolExposure: real,
                                   maxTotalExposure: real, maxDailyDrawdown: real)

  datatype RiskState = RiskState(totalBalance: real, positions: seq<LivePosition>, consecutiveLosses: int,
                                 dailyStart: Option<real>)

  function OpenIn(ps: seq<LivePosition>): nat {
    if ps == [] then 0 else OpenIn(Init(ps)) + if Last(ps).IsOpen() then 1 else 0
  }

  /** Value at entry of the open positions, of one symbol or of all. */
  function Exposure(ps: seq<LivePosition>, symbol: Option<string>): real {
    if ps == [] then 0.0
    else Exposure(Init(ps), symbol)
         + if Last(ps).IsOpen() && (symbol.None? || symbol.value == Last(ps).symbol)
           then Last(ps).units * Last(ps).entryPrice else 0.0
  }

  /** What is at stake: an open position adds its value at entry to its own symbol's exposure and to the total, to no
      other symbol's, and counts as one; a closed one adds nothing. */
  lemma OnePositionMore(ps: seq<LivePosition>, p: LivePosition, symbol: string)
    ensures Exposure([], Some(symbol)) == Exposure([], None) == 0.0 && OpenIn([]) == 0
    ensures var value := if p.IsOpen() then p.units * p.entryPrice else 0.0;
      Exposure(ps + [p], None) == Exposure(ps, None) + value
      && Exposure(ps + [p], Some(p.symbol)) == Exposure(ps, Some(p.symbol)) + value
      && (symbol != p.symbol ==> Exposure(ps + [p], Some(symbol)) == Exposure(ps, Some(symbol)))
    ensures OpenIn(ps + [p]) == OpenIn(ps) + if p.IsOpen() then 1 else 0
  {
    assert Init(ps + [p]) == ps;
  }

  lemma {:induction false} ExposureIsNonnegative(ps: seq<LivePosition>, symbol: Option<string>)
    requires forall p :: p in ps ==> p.Valid()
    ensures Exposure(ps, symbol) >= 0.0
  {
    if ps != [] {
      assert Last(ps) in ps;
      PositiveProduct(Last(ps).units, Last(ps).entryPrice);
      ExposureIsNonnegative(Init(ps), symbol);
    }
  }

  function Share(x: real, balance: real): real {
    if balance > 0.0 then x / balance else 0.0
  }

  predicate DrawdownReached(start: Option<real>, balance: real, limit: real) {
    start.Some? && start.value > 0.0
    && (start.value - balance) / start.value > 0.0 && (start.value - balance) / start.value >= limit
  }

  function AssessRisk(l: RiskLimits, s: RiskState, symbol: Option<string>): RiskVerdict {
    if DrawdownReached(s.dailyStart, s.totalBalance, l.maxDailyDrawdown) then REJECTED_DAILY_DRAWDOWN
    else if s.consecutiveLosses >= l.maxConsecutiveLosses then REJECTED_MAX_LOSSES
    else if OpenIn(s.positions) >= l.maxOpenPositions then REJECTED_MAX_POSITIONS
    else if symbol.Some? && Share(Exposure(s.positions, symbol), s.totalBalance) >= l.maxSymbolExposure
      then REJECTED_SYMBOL_EXPOSURE
    else if Share(Exposure(s.positions, None), s.totalBalance) >= l.maxTotalExposure then REJECTED_TOTAL_EXPOSURE
    else APPROVED
  }

  /** In amounts instead of ratios: a trade is approved exactly when the day has not lost its limit, losses and
      open positions are below theirs, and what is already at stake is below the caps. Without a positive balance
      the shares count as zero, so every positive cap is kept whatever is open. */
  lemma RiskApprovedIff(l: RiskLimits, s: RiskState, symbol: string)
    ensures AssessRisk(l, s, Some(symbol)) == APPROVED <==>
      && !DayLost(s.dailyStart, s.totalBalance, l.maxDailyDrawdown)
      && s.consecutiveLosses < l.maxConsecutiveLosses && OpenIn(s.positions) < l.maxOpenPositions
      && BelowCap(Exposure(s.positions, Some(symbol)), l.maxSymbolExposure, s.totalBalance)
      && BelowCap(Exposure(s.positions, None), l.maxTotalExposure, s.totalBalance)
  {
    hide Exposure;
    hide OpenIn;
    DayLostIff(s.dailyStart, s.totalBalance, l.maxDailyDrawdown);
    BelowCapIff(Exposure(s.positions, Some(symbol)), l.maxSymbolExposure, s.totalBalance);
    BelowCapIff(Exposure(s.positions, None), l.maxTotalExposure, s.totalBalance);
    hide DrawdownReached;
    hide Share;
    hide DayLost;
    hide BelowCap;
  }

  /** The balance is below the day's start by at least the limit, and below it at all. */
  predicate DayLost(start: Option<real>, balance: real, limit: real) {
    start.Some? && start.value > 0.0 && start.value > balance && start.value - balance >= limit * start.value
  }

  predicate BelowCap(exposure: real, cap: real, balance: real) {
    if balance > 0.0 then exposure < cap * balance else cap > 0.0
  }

  lemma DayLostIff(start: Option<real>, balance: real, limit: real)
    ensures DrawdownReached(start, balance, limit) <==> DayLost(start, balance, limit)
  {
    if start.Some? && start.value > 0.0 {
      QuotientAtLeast(start.value - balance, start.value, limit);
      QuotientIsPositive(start.value - balance, start.value);
    }
  }

  lemma BelowCapIff(exposure: real, cap: real, balance: real)
    ensures Share(exposure, balance) < cap <==> BelowCap(exposure, cap, balance)
  {
    if balance > 0.0 {
      QuotientAtLeast(exposure, balance, cap);
    }
  }

  datatype PortfolioVerdict =
    | ALLOWED | REJECTED_EXPOSURE | REJECTED_SYMBOL_WEIGHT | REJECTED_CORRELATION_CAP | REJECTED_HEAT_CAP
    | REJECTED_POSITION_LIMIT

  datatype PortfolioLimits = PortfolioLimits(maxExposure: real, maxSymbolWeight: real, maxCorrelation: real,
                                             maxHeat: real, maxPositions: int)

  /** The correlation matrix maps a symbol to its row. */
  type Matrix = map<string, map<string, real>>

  datatype PortfolioState = PortfolioState(positions: seq<LivePosition>, totalBalance: real, matrix: Matrix,
                                           peak: Option<real>)

  function Heat(peak: Option<real>, balance: real): real {
    if peak.None? || peak.value <= 0.0 || balance >= peak.value then 0.0 else (peak.value - balance) / peak.value
  }

  /** Correlation read off a row: the symbol's entry, else the row's own diagonal, else zero. */
  function CorrelationIn(row: map<string, real>, owner: string, symbol: string): real {
    if symbol in row then row[symbol] else if owner in row then row[owner] else 0.0
  }

  predicate TooCorrelated(m: Matrix, symbol: string, limit: real) {
    exists owner :: owner in m && owner != symbol && CorrelationIn(m[owner], owner, symbol) >= limit
  }

  function AssessPortfolio(l: PortfolioLimits, s: PortfolioState, symbol: Option<string>): PortfolioVerdict {
    if Heat(s.peak, s.totalBalance) >= l.maxHeat then REJECTED_HEAT_CAP
    else if Share(Exposure(s.positions, None), s.totalBalance) >= l.maxExposure then REJECTED_EXPOSURE
    else if OpenIn(s.positions) >= l.maxPositions then REJECTED_POSITION_LIMIT
    else if symbol.Some? && Share(Exposure(s.positions, symbol), s.totalBalance) >= l.maxSymbolWeight
      then REJECTED_SYMBOL_WEIGHT
    else if symbol.Some? && TooCorrelated(s.matrix, symbol.value, l.maxCorrelation) then REJECTED_CORRELATION_CAP
    else ALLOWED
  }

  /** The balance has fallen from its peak by less than the limit's share of it; at its peak, or without one, any
      positive limit will do. */
  predicate CoolEnough(peak: Option<real>, balance: real, limit: real) {
    if peak.Some? && peak.value > 0.0 && balance < peak.value then peak.value - balance < limit * peak.value
    else limit > 0.0
  }

  lemma CoolEnoughIff(peak: Option<real>, balance: real, limit: real)
    ensures Heat(peak, balance) < limit <==> CoolEnough(peak, balance, limit)
  {
    if peak.Some? && peak.value > 0.0 {
      QuotientAtLeast(peak.value - balance, peak.value, limit);
    }
  }

  /** Of every other symbol's row, the entry for this symbol is below the cap; of a row without one, the diagonal;
      of a row with neither, zero. */
  predicate Uncorrelated(m: Matrix, symbol: string, cap: real) {
    forall owner :: owner in m && owner != symbol ==>
      && (symbol in m[owner] ==> m[owner][symbol] < cap)
      && (symbol !in m[owner] && owner in m[owner] ==> m[owner][owner] < cap)
      && (symbol !in m[owner] && owner !in m[owner] ==> 0.0 < cap)
  }

  lemma UncorrelatedIff(m: Matrix, symbol: string, cap: real)
    ensures !TooCorrelated(m, symbol, cap) <==> Uncorrelated(m, symbol, cap)
  {
    if !TooCorrelated(m, symbol, cap) {
      assert forall owner :: owner in m && owner != symbol ==> CorrelationIn(m[owner], owner, symbol) < cap;
    }
  }

  /** In amounts: the portfolio allows a trade exactly when the balance is close enough to its peak, what is at stake
      is below the caps, there is room for a position, and no other symbol is too close. */
  lemma PortfolioAllowsIff(l: PortfolioLimits, s: PortfolioState, symbol: string)
    ensures AssessPortfolio(l, s, Some(symbol)) == ALLOWED <==>
      && CoolEnough(s.peak, s.totalBalance, l.maxHeat)
      && BelowCap(Exposure(s.positions, None), l.maxExposure, s.totalBalance)
      && OpenIn(s.positions) < l.maxPositions
      && BelowCap(Exposure(s.positions, Some(symbol)), l.maxSymbolWeight, s.totalBalance)
      && Uncorrelated(s.matrix, symbol, l.maxCorrelation)
  {
    hide Exposure;
    hide OpenIn;
    CoolEnoughIff(s.peak, s.totalBalance, l.maxHeat);
    BelowCapIff(Exposure(s.positions, None), l.maxExposure, s.totalBalance);
    BelowCapIff(Exposure(s.positions, Some(symbol)), l.maxSymbolWeight, s.totalBalance);
    UncorrelatedIff(s.matrix, symbol, l.maxCorrelation);
    hide Heat;
    hide Share;
    hide TooCorrelated;
    hide CoolEnough;
    hide BelowCap;
    hide Uncorrelated;
  }

  /** Every row holds a one for its own symbol, as computed matrices do. */
  predicate HasUnitDiagonal(m: Matrix) {
    forall owner :: owner in m ==> owner in m[owner] && m[owner][owner] == 1.0
  }

  /** Neither a row nor an entry for the symbol. */
  predicate IsUnknown(m: Matrix, symbol: string) {
    symbol !in m && forall owner :: owner in m ==> symbol !in m[owner]
  }

  /** A symbol that the matrix does not know is judged by the diagonal: it meets the correlation cap exactly when
      there is a matrix at all and the cap is at most one, and is then never allowed. */
  lemma UnknownSymbolIsTooCorrelatedIff(l: PortfolioLimits, s: PortfolioState, symbol: string)
    requires HasUnitDiagonal(s.matrix) && IsUnknown(s.matrix, symbol)
    ensures TooCorrelated(s.matrix, symbol, l.maxCorrelation) <==> s.matrix != map[] && l.maxCorrelation <= 1.0
    ensures s.matrix != map[] && l.maxCorrelation <= 1.0 ==> AssessPortfolio(l, s, Some(symbol)) != ALLOWED
    ensures AssessPortfolio(l, s, Some(symbol)) == REJECTED_CORRELATION_CAP
      ==> s.matrix != map[] && l.maxCorrelation <= 1.0
  {
    hide Exposure;
    hide OpenIn;
    hide Heat;
    hide Share;
    if s.matrix != map[] {
      var owner :| owner in s.matrix;
      assert CorrelationIn(s.matrix[owner], owner, symbol) == 1.0;
    }
  }
}

/** The execution engine: signal, gates, sizing, bracket, order, saved position. */
module ExecutionPipeline {
  import opened Common
  import opened Positions
  import opened Monitoring
  import opened RiskGates
  import B = BracketOrder
  import V = SignalValidation
  import StopRatchet

  datatype Config = Config(risk: RiskLimits, portfolio: PortfolioLimits, riskPct: real, slMultiplier: real,
                           tpMultiplier: real,
                           consecutiveLosses: int, dailyStart: Option<real>, peak: Option<real>)

  /** Free balance and ATR; an ATR value is positive by construction. */
  datatype Market = Market(balance: real, atr: real)

  datatype Rejection =
    | SignalRejected(reason: V.RejectionReason) | BreakerHalted | NoMarketData | RiskRejected(risk: RiskVerdict)
    | PortfolioRejected(portfolio: PortfolioVerdict) | InvalidEntryPrice | ZeroSize | OrderFailed

  // ---------- Sizing and the bracket ----------

  /** Never less than half a percent of the entry price. */
  function StopDistance(c: Config, atr: real, entry: real): real {
    Larger(atr * c.slMultiplier, entry * 0.005)
  }

  function TargetMove(c: Config, atr: real): real {
    atr * c.tpMultiplier
  }

  function Units(balance: real, riskPct: real, distance: real): real
    requires distance > 0.0
  {
    balance * riskPct / distance
  }

  function StopPrice(side: OrderSide, entry: real, distance: real): real {
    if side == Buy then Larger(entry - distance, 0.01) else Larger(entry + distance, entry + 0.01)
  }

  function TargetPrice(side: OrderSide, entry: real, distance: real, move: real): real {
    if side == Buy then Larger(entry + move, StopPrice(side, entry, distance) + 0.01)
    else Larger(Smaller(entry - move, entry - 0.01), 0.01)
  }

  /** Everything between an accepted signal and the order: what is placed, or why nothing is. */
  function Plan(c: Config, open: seq<LivePosition>, signal: V.ExecutionSignal, halted: bool,
                market: Option<Market>): Result<B.CompositeOrder, Rejection> {
    if halted then Err(BreakerHalted)
    else if market.None? then Err(NoMarketData)
    else
      var balance, atr := market.value.balance, market.value.atr;
      var risk := AssessRisk(c.risk, RiskState(balance, open, c.consecutiveLosses, c.dailyStart), Some(signal.symbol));
      var portfolio := AssessPortfolio(c.portfolio, PortfolioState(open, balance, map[], c.peak), Some(signal.symbol));
      if risk != APPROVED then Err(RiskRejected(risk))
      else if portfolio != ALLOWED then Err(PortfolioRejected(portfolio))
      else if signal.price.None? || signal.price.value <= 0.0 then Err(InvalidEntryPrice)
      else
        var entry := signal.price.value;
        var distance := StopDistance(c, atr, entry);
        var units := Units(balance, c.riskPct, distance);
        if units <= 0.0 then Err(ZeroSize)
        else Ok(B.CompositeOrder(signal.side, units, Some(StopPrice(signal.side, entry, distance)),
                                 Some(TargetPrice(signal.side, entry, distance, TargetMove(c, atr)))))
  }

  /** The distance from entry, except that a purchase's stop is no lower than 0.01 and a sale's at least 0.01 above
      entry. */
  predicate StopLies(side: OrderSide, entry: real, distance: real, stop: real) {
    if side == Buy then stop >= 0.01 && stop >= entry - distance && (stop == 0.01 || entry - stop == distance)
    else stop >= entry + 0.01 && stop >= entry + distance && (stop == entry + 0.01 || stop - entry == distance)
  }

  /** The move away from entry, except that a purchase's target is at least 0.01 above its stop, and a sale's at least
      0.01 below entry but no lower than 0.01. */
  predicate TargetLies(side: OrderSide, entry: real, move: real, stop: real, target: real) {
    if side == Buy then
      target >= entry + move && target >= stop + 0.01 && (target - entry == move || target == stop + 0.01)
    else
      target >= 0.01
      && (target == 0.01 ==> entry - move <= 0.01 || entry - 0.01 <= 0.01)
      && (target > 0.01 ==>
            target <= entry - move && target <= entry - 0.01 && (entry - target == move || target == entry - 0.01))
  }

  /** The target is as many ATRs away as its multiplier says. */
  lemma TargetMoveInAtrs(c: Config, atr: real)
    requires atr > 0.0
    ensures TargetMove(c, atr) / atr == c.tpMultiplier
  {
  }

  lemma BracketLies(side: OrderSide, entry: real, distance: real, move: real)
    ensures StopLies(side, entry, distance, StopPrice(side, entry, distance))
    ensures TargetLies(side, entry, move, StopPrice(side, entry, distance), TargetPrice(side, entry, distance, move))
  {
  }

  /** Half a percent of the entry price or the given number of ATRs, whichever is more. */
  predicate IsStopDistance(c: Config, atr: real, entry: real, distance: real) {
    distance >= atr * c.slMultiplier && distance >= entry * 0.005
    && (distance == atr * c.slMultiplier || distance == entry * 0.005)
  }

  /** What the two gates ask, in amounts. */
  predicate GatesOpen(c: Config, open: seq<LivePosition>, symbol: string, balance: real) {
    && !DayLost(c.dailyStart, balance, c.risk.maxDailyDrawdown)
    && c.consecutiveLosses < c.risk.maxConsecutiveLosses
    && OpenIn(open) < c.risk.maxOpenPositions && OpenIn(open) < c.portfolio.maxPositions
    && BelowCap(Exposure(open, Some(symbol)), c.risk.maxSymbolExposure, balance)
    && BelowCap(Exposure(open, Some(symbol)), c.portfolio.maxSymbolWeight, balance)
    && BelowCap(Exposure(open, None), c.risk.maxTotalExposure, balance)
    && BelowCap(Exposure(open, None), c.portfolio.maxExposure, balance)
    && CoolEnough(c.peak, balance, c.portfolio.maxHeat)
  }

  lemma GatesOpenIff(c: Config, open: seq<LivePosition>, symbol: string, balance: real)
    ensures GatesOpen(c, open, symbol, balance) <==>
      AssessRisk(c.risk, RiskState(balance, open, c.consecutiveLosses, c.dailyStart), Some(symbol)) == APPROVED
      && AssessPortfolio(c.portfolio, PortfolioState(open, balance, map[], c.peak), Some(symbol)) == ALLOWED
  {
    RiskApprovedIff(c.risk, RiskState(balance, open, c.consecutiveLosses, c.dailyStart), symbol);
    PortfolioAllowsIff(c.portfolio, PortfolioState(open, balance, map[], c.peak), symbol);
    hide AssessRisk;
    hide AssessPortfolio;
    hide Exposure;
    hide OpenIn;
    hide DayLost;
    hide BelowCap;
    hide CoolEnough;
  }

  lemma UnitsArePositiveIff(balance: real, riskPct: real, distance: real)
    requires distance > 0.0
    ensures Units(balance, riskPct, distance) > 0.0 <==> balance * riskPct > 0.0
  {
    QuotientIsPositive(balance * riskPct, distance);
  }

  lemma UnitsTimesDistance(balance: real, riskPct: real, distance: real)
    requires distance > 0.0
    ensures Units(balance, riskPct, distance) * distance == balance * riskPct
  {
  }

  /** An order goes out exactly when trading is not halted, market data are there, the gates are open, the signal has a
      positive price and there is something to risk. */
  lemma PlansIff(c: Config, open: seq<LivePosition>, signal: V.ExecutionSignal, halted: bool, market: Option<Market>)
    ensures Plan(c, open, signal, halted, market).Ok? <==>
      !halted && market.Some? && GatesOpen(c, open, signal.symbol, market.value.balance)
      && signal.price.Some? && signal.price.value > 0.0 && market.value.balance * c.riskPct > 0.0
  {
    hide GatesOpen;
    hide AssessRisk;
    hide AssessPortfolio;
    hide Units;
    hide StopPrice;
    hide TargetPrice;
    if market.Some? {
      GatesOpenIff(c, open, signal.symbol, market.value.balance);
      if signal.price.Some? && signal.price.value > 0.0 {
        UnitsArePositiveIff(market.value.balance, c.riskPct, StopDistance(c, market.value.atr, signal.price.value));
      }
    }
  }

  /** The order risks exactly its share of the balance over the stop distance, and its stop and target lie where they
      should. */
  lemma PlannedOrderLies(c: Config, open: seq<LivePosition>, signal: V.ExecutionSignal, market: Market)
    requires Plan(c, open, signal, false, Some(market)).Ok?
    ensures signal.price.Some?
    ensures var o, entry := Plan(c, open, signal, false, Some(market)).value, signal.price.value;
      var distance := StopDistance(c, market.atr, entry);
      o.side == signal.side && o.slPrice.Some? && o.tpPrice.Some? && IsStopDistance(c, market.atr, entry, distance)
      && o.amount * distance == market.balance * c.riskPct
      && StopLies(o.side, entry, distance, o.slPrice.value)
      && TargetLies(o.side, entry, TargetMove(c, market.atr), o.slPrice.value, o.tpPrice.value)
  {
    hide AssessRisk;
    hide AssessPortfolio;
    hide Units;
    hide StopPrice;
    hide TargetPrice;
    hide StopLies;
    hide TargetLies;
    hide TargetMove;
    var entry := signal.price.value;
    var distance := StopDistance(c, market.atr, entry);
    assert IsStopDistance(c, market.atr, entry, distance);
    hide IsStopDistance;
    UnitsTimesDistance(market.balance, c.riskPct, distance);
    BracketLies(signal.side, entry, distance, TargetMove(c, market.atr));
  }

  /** Price per unit lost when the position entered at `entry` is closed at `stop`. */
  function LossPerUnit(side: OrderSide, entry: real, stop: real): real {
    if side == Buy then entry - stop else stop - entry
  }

  predicate Brackets(side: OrderSide, stop: real, entry: real, target: real) {
    if side == Buy then stop < entry < target else target < entry < stop
  }

  /** Stop and target lie strictly on their sides of the entry exactly when the entry price is above 0.01. */
  lemma BracketsIff(c: Config, side: OrderSide, entry: real, atr: real)
    requires entry > 0.0 && atr > 0.0 && c.tpMultiplier > 0.0
    ensures var d := StopDistance(c, atr, entry);
      Brackets(side, StopPrice(side, entry, d), entry, TargetPrice(side, entry, d, TargetMove(c, atr)))
      <==> entry > 0.01
  {
    PositiveProduct(atr, c.tpMultiplier);
  }

  /** Closing at the stop loses at most the risk budget - for a sale exactly when the stop distance is at least
      0.01, and always for a purchase. */
  lemma LossAtStopIff(side: OrderSide, entry: real, distance: real, balance: real, riskPct: real)
    requires distance > 0.0 && entry > 0.0 && Units(balance, riskPct, distance) > 0.0
    ensures var loss, units := LossPerUnit(side, entry, StopPrice(side, entry, distance)), Units(balance, riskPct,
                                                                                                 distance);
      loss * units <= balance * riskPct <==> side == Buy || distance >= 0.01
  {
    var loss, units := LossPerUnit(side, entry, StopPrice(side, entry, distance)), Units(balance, riskPct, distance);
    UnitsTimesDistance(balance, riskPct, distance);
    OrderTimes(distance, loss, units);
  }

  /** The value of a position never exceeds the budget over half a percent, and reaches it exactly when half a
      percent of the entry price, not the ATR, sets the stop distance. */
  lemma NotionalBound(c: Config, entry: real, atr: real, balance: real)
    requires entry > 0.0 && Units(balance, c.riskPct, StopDistance(c, atr, entry)) > 0.0
    ensures var notional := Units(balance, c.riskPct, StopDistance(c, atr, entry)) * entry;
      0.005 * notional <= balance * c.riskPct
      && (0.005 * notional == balance * c.riskPct <==> atr * c.slMultiplier <= entry * 0.005)
  {
    var d := StopDistance(c, atr, entry);
    var units := Units(balance, c.riskPct, d);
    UnitsTimesDistance(balance, c.riskPct, d);
    hide Units;
    OrderTimes(d, entry * 0.005, units);
    OrderTimes(entry * 0.005, d, units);
    assert entry * 0.005 * units == 0.005 * (units * entry);
  }

  /** The caps are checked before the trade, on what is already open: a trade of its own is as large as a cap
      on the share of the balance exactly when the stop distance is at most riskPct / cap of the entry price. */
  lemma TradeReachesCapIff(entry: real, distance: real, balance: real, riskPct: real, cap: real)
    requires distance > 0.0 && balance > 0.0
    ensures Units(balance, riskPct, distance) * entry >= cap * balance <==> riskPct * entry >= cap * distance
  {
    var units := Units(balance, riskPct, distance);
    UnitsTimesDistance(balance, riskPct, distance);
    hide Units;
    OrderTimes(units * entry, cap * balance, distance);
    OrderTimes(riskPct * entry, cap * distance, balance);
    Regroup(units, entry, distance, balance, riskPct, cap);
  }

  /** What the engine sends: an order on the signal's side whose stop and target bracket the signal's price, whose
      loss at the stop and whose value stay within the budget, under the conditions above. */
  lemma PlannedOrderIsBracketedAndBounded(c: Config, open: seq<LivePosition>, signal: V.ExecutionSignal, market: Market,
                                          o: B.CompositeOrder)
    requires Plan(c, open, signal, false, Some(market)) == Ok(o) && market.atr > 0.0 && c.tpMultiplier > 0.0
    ensures o.side == signal.side && o.Valid() && o.slPrice.Some? && o.tpPrice.Some? && signal.price.Some?
    ensures Brackets(o.side, o.slPrice.value, signal.price.value, o.tpPrice.value) <==> signal.price.value > 0.01
    ensures LossPerUnit(o.side, signal.price.value, o.slPrice.value) * o.amount <= market.balance * c.riskPct
            <==> o.side == Buy || StopDistance(c, market.atr, signal.price.value) >= 0.01
    ensures 0.005 * (o.amount * signal.price.value) <= market.balance * c.riskPct
  {
    hide AssessRisk;
    hide AssessPortfolio;
    var entry := signal.price.value;
    var d := StopDistance(c, market.atr, entry);
    BracketsIff(c, signal.side, entry, market.atr);
    LossAtStopIff(signal.side, entry, d, market.balance, c.riskPct);
    NotionalBound(c, entry, market.atr, market.balance);
    hide StopPrice;
    hide TargetPrice;
    hide Units;
    hide TargetMove;
  }

  lemma Regroup(units: real, entry: real, distance: real, balance: real, riskPct: real, cap: real)
    requires units * distance == balance * riskPct
    ensures units * entry * distance == riskPct * entry * balance
    ensures cap * balance * distance == cap * distance * balance
  {
    assert units * entry * distance == units * distance * entry;
    assert riskPct * entry * balance == balance * riskPct * entry;
  }

  // ---------- After the order ----------

  /** The position as the engine records it: filled units, filled price, no entry ATR. */
  function Opened(signal: V.ExecutionSignal, entry: real, o: B.CompositeOrder, result: B.OrderResult,
                  id: string): LivePosition {
    var price := if Truthy(result.avgPrice) then result.avgPrice.value else entry;
    LivePosition(id, signal.symbol, signal.side, result.filledAmount, price, price, o.slPrice, o.tpPrice, None, None,
                 false, None, false, None, result.filledAmount, 0.5, 0.25, None, OPEN)
  }

  /** A new position starts out safe for the stop ratchet exactly when slippage has not carried the fill past
      the stop. */
  lemma OpenedIsSafeIff(signal: V.ExecutionSignal, entry: real, o: B.CompositeOrder, result: B.OrderResult, id: string)
    requires o.slPrice.Some? && Opened(signal, entry, o, result, id).Valid()
    ensures StopRatchet.Safe(Opened(signal, entry, o, result, id)) <==>
      LossPerUnit(signal.side, if Truthy(result.avgPrice) then result.avgPrice.value else entry, o.slPrice.value) >= 0.0
  {
  }

  /** The constructor's checks of the execution report. */
  predicate Reportable(result: B.OrderResult) {
    result.filledAmount >= 0.0 && PositiveOrNone(result.avgPrice) && result.status != B.NEW
    && result.status != B.EXPIRED
  }

  /** `Raised` is an exception that leaves the engine after the order went through. */
  datatype Execution = Rejected(rejection: Rejection) | Executed(position: LivePosition) | Raised

  /** How an execution ends after a confirmed order, and what it has saved by then. */
  datatype Settlement = Settlement(outcome: Execution, saved: Option<LivePosition>)

  /** The position is built, saved, and then reported. */
  function Settle(p: LivePosition, result: B.OrderResult): Settlement {
    if !p.Valid() then Settlement(Raised, None)
    else Settlement(if Reportable(result) then Executed(p) else Raised, Some(p))
  }

  /** The repository's contents. */
  datatype Book = Book(ids: seq<string>, store: Store)

  function Save(b: Book, p: LivePosition): Book {
    Book(if p.id in b.store then b.ids else b.ids + [p.id], b.store[p.id := p])
  }

  /** What an execution leaves in the repository, given whether the validator accepts the signal and what the
      exchange confirms, if it confirms the order. */
  function AfterExecution(c: Config, b: Book, signal: V.ExecutionSignal, accepted: bool, halted: bool,
                          market: Option<Market>,
                          result: Option<B.OrderResult>, id: string): Book {
    var plan := Plan(c, OpenPositions(b.ids, b.store), signal, halted, market);
    if !accepted || plan.Err? || result.None? then b
    else
      var saved := Settle(Opened(signal, signal.price.value, plan.value, result.value, id), result.value).saved;
      if saved.Some? then Save(b, saved.value) else b
  }

  class ExecutionEngine {
    const config: Config
    const validator: V.SignalValidator
    const orders: B.CcxtOrderClient
    const repo: PositionRepository

    constructor (config: Config, validator: V.SignalValidator, orders: B.CcxtOrderClient, repo: PositionRepository)
      ensures this.config == config && this.validator == validator && this.orders == orders && this.repo == repo
    {
      this.config, this.validator, this.orders, this.repo := config, validator, orders, repo;
    }

    /** A rejection before the order changes nothing on the exchange or in the repository; otherwise the planned
        order goes out, and the repository is left as AfterExecution says. */
    method Execute(signal: V.ExecutionSignal, now: int, halted: bool, market: Option<Market>, id: string)
      returns (r: Execution)
      requires repo.Valid() && (market.Some? ==> market.value.atr > 0.0)
      modifies validator, orders.exchange, repo
      ensures repo.Valid()
      ensures validator.Remembered()
        == V.Remember(validator.limits, old(validator.Remembered()), V.Arrival(signal, now))
      ensures var rejection := V.Verdict(validator.limits, old(validator.Remembered()), V.Arrival(signal, now));
        var before := Book(old(repo.ids), old(repo.store));
        var plan := Plan(config, OpenPositions(before.ids, before.store), signal, halted, market);
        if rejection.Some? || plan.Err? then
          r == Rejected(if rejection.Some? then SignalRejected(rejection.value) else plan.error)
          && orders.exchange.calls == old(orders.exchange.calls) && Book(repo.ids, repo.store) == before
        else
          var n := |old(orders.exchange.calls)|;
          var placed := B.CompositeResult(plan.value, orders.maxSlRetries, orders.exchange.answers, n);
          orders.exchange.calls == old(orders.exchange.calls)
            + B.CompositeCalls(plan.value, orders.maxSlRetries, orders.exchange.answers, n)
          && r == (if placed.Err? then Rejected(OrderFailed)
                   else Settle(Opened(signal, signal.price.value, plan.value, placed.value, id), placed.value).outcome)
          && Book(repo.ids, repo.store)
             == AfterExecution(config, before, signal, true, halted, market,
                               if placed.Ok? then Some(placed.value) else None, id)
    {
      var rejection := validator.Validate(signal, now);
      if rejection.Some? {
        return Rejected(SignalRejected(rejection.value));
      }
      var plan := PlanOrder(signal, halted, market);
      if plan.Err? {
        return Rejected(plan.error);
      }
      PlannedPrice(config, OpenPositions(repo.ids, repo.store), signal, halted, market);
      hide Plan;
      hide V.Verdict;
      hide V.Remember;
      hide B.CompositeCalls;
      hide B.CompositeResult;
      hide OpenPositions;
      hide Reportable;
      var placed := orders.PlaceCompositeOrder(plan.value);
      if placed.Err? {
        return Rejected(OrderFailed);
      }
      var position := Opened(signal, signal.price.value, plan.value, placed.value, id);
      if !position.Valid() {
        return Raised;
      }
      repo.Save(position);
      r := if Reportable(placed.value) then Executed(position) else Raised;
    }

    /** The gates, the sizing and the bracket. */
    method PlanOrder(signal: V.ExecutionSignal, halted: bool, market: Option<Market>)
      returns (plan: Result<B.CompositeOrder, Rejection>)
      requires repo.Valid()
      ensures plan == Plan(config, OpenPositions(repo.ids, repo.store), signal, halted, market)
    {
      if halted {
        return Err(BreakerHalted);
      }
      if market.None? {
        return Err(NoMarketData);
      }
      var balance, atr := market.value.balance, market.value.atr;
      var positions := repo.ListOpen();
      var risk := AssessRisk(config.risk, RiskState(balance, positions, config.consecutiveLosses, config.dailyStart),
                             Some(signal.symbol));
      if risk != APPROVED {
        return Err(RiskRejected(risk));
      }
      var portfolio := AssessPortfolio(config.portfolio, PortfolioState(positions, balance, map[], config.peak),
                                       Some(signal.symbol));
      if portfolio != ALLOWED {
        return Err(PortfolioRejected(portfolio));
      }
      if signal.price.None? || signal.price.value <= 0.0 {
        return Err(InvalidEntryPrice);
      }
      hide AssessRisk;
      hide AssessPortfolio;
      hide TargetMove;
      hide OpenPositions;
      var entry := signal.price.value;
      var slDistance := StopDistance(config, atr, entry);
      var units := Units(balance, config.riskPct, slDistance);
      if units <= 0.0 {
        return Err(ZeroSize);
      }
      var move := TargetMove(config, atr);
      var slPrice, tpPrice := entry - slDistance, entry + move;
      if signal.side == Sell {
        slPrice, tpPrice := entry + slDistance, entry - move;
      }
      if signal.side == Buy {
        slPrice := Larger(slPrice, 0.01);
        tpPrice := Larger(tpPrice, slPrice + 0.01);
      } else {
        slPrice := Larger(slPrice, entry + 0.01);
        tpPrice := Smaller(tpPrice, entry - 0.01);
        tpPrice := Larger(tpPrice, 0.01);
      }
      plan := Ok(B.CompositeOrder(signal.side, units, Some(slPrice), Some(tpPrice)));
    }
  }

  lemma PlannedPrice(c: Config, open: seq<LivePosition>, signal: V.ExecutionSignal, halted: bool,
                     market: Option<Market>)
    requires Plan(c, open, signal, halted, market).Ok?
    ensures signal.price.Some? && signal.price.value > 0.0 && Plan(c, open, signal, halted, market).value.Valid()
  {
  }

  /** A rejection for a failed order is not always the end of it: the exchange is left with the position, no
      stop that the engine knows of, and no record of either, exactly when the entry itself went through. */
  lemma FailedOrderLeavesPositionIff(o: B.CompositeOrder, retries: int, answers: nat -> B.Answer, n: nat)
    requires o.Valid() && B.CompositeResult(o, retries, answers, n).Err?
    ensures var calls := B.CompositeCalls(o, retries, answers, n);
      B.LiveStops(calls) == B.LostStops(calls)
      && B.Net(calls) == if answers(n).Rejected? then 0.0 else B.Signed(o.side, o.amount)
  {
    var calls := B.CompositeCalls(o, retries, answers, n);
    B.CompositeIsComposed(o, retries, answers, n);
    assert calls == [calls[0]] + calls[1..];
    B.HoldingsAdd([calls[0]], calls[1..]);
    B.HoldingsOfOne(calls[0]);
    if answers(n).Accepted? {
      B.HoldingsOfRaisedStops(calls[1..], o.Stop());
    }
  }

  /** The engine raises although the position is saved exactly for a valid position that the exchange confirms as
      new or expired, or at a price of zero; and it never saves one that is not valid. */
  lemma NewOrderRaisesAfterSaving(signal: V.ExecutionSignal, entry: real, o: B.CompositeOrder, result: B.OrderResult,
                                  id: string)
    ensures var p := Opened(signal, entry, o, result, id); var s := Settle(p, result);
      (s.outcome == Raised && s.saved == Some(p) <==>
         p.Valid() && (result.status == B.NEW || result.status == B.EXPIRED || result.avgPrice == Some(0.0)))
      && (s.saved.Some? <==> result.filledAmount > 0.0 && EntersAtPrice(result, entry) && PositiveOrNone(o.slPrice))
  {
  }

  predicate EntersAtPrice(result: B.OrderResult, entry: real) {
    if Truthy(result.avgPrice) then result.avgPrice.value > 0.0 else entry > 0.0
  }
}
