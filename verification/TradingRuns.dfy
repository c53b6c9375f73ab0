/** Whole trading runs: engine executions, one at a time, mixed with monitoring passes. */
module TradingRuns {
  import opened Common
  import opened Positions
  import opened Monitoring
  import opened RiskGates
  import opened ExecutionPipeline
  import B = BracketOrder
  import V = SignalValidation

  const EMPTY := Book([], map[])

  /** An execution carries what the outside answers: whether the validator accepts, the breaker's state, the
      market data and the order's confirmation, if there is one. */
  datatype Event =
    | Execute(signal: V.ExecutionSignal, accepted: bool, halted: bool, market: Option<Market>,
              result: Option<B.OrderResult>, id: string)
    | MonitorPass(feed: Feed)

  function Step(c: Config, b: Book, e: Event): Book {
    match e
    case Execute(signal, accepted, halted, market, result, id) =>
      AfterExecution(c, b, signal, accepted, halted, market, result, id)
    case MonitorPass(feed) => Book(b.ids, WholePass(b.ids, b.store, feed).store)
  }

  function After(c: Config, es: seq<Event>): Book {
    if es == [] then EMPTY else Step(c, After(c, Init(es)), Last(es))
  }

  // ---------- The limit on open positions ----------

  lemma {:induction false} ReplacingAddsAtMostOne(ids: seq<string>, store: Store, p: LivePosition)
    requires forall i, j :: 0 <= i < j < |ids| ==> ids[i] != ids[j]
    ensures OpenCount(ids, store[p.id := p]) <= OpenCount(ids, store) + if p.id in ids then 1 else 0
  {
    if ids != [] {
      ReplacingAddsAtMostOne(Init(ids), store, p);
      assert ids == Init(ids) + [Last(ids)];
      if Last(ids) == p.id {
        assert p.id !in Init(ids);
      }
    }
  }

  lemma SavingKeepsStoreValid(b: Book, p: LivePosition)
    requires ValidStore(b.ids, b.store)
    ensures ValidStore(Save(b, p).ids, Save(b, p).store)
  {
    hide OpenPositions;
  }

  lemma SavingAddsAtMostOne(b: Book, p: LivePosition)
    requires ValidStore(b.ids, b.store)
    ensures OpenCount(Save(b, p).ids, Save(b, p).store) <= OpenCount(b.ids, b.store) + 1
  {
    ReplacingAddsAtMostOne(b.ids, b.store, p);
    if p.id !in b.store {
      assert p.id !in b.ids;
      OneMoreId(b.ids, p.id, b.store[p.id := p]);
    }
  }

  lemma OneMoreId(ids: seq<string>, id: string, store: Store)
    ensures OpenCount(ids + [id], store) <= OpenCount(ids, store) + 1
  {
    assert Init(ids + [id]) == ids;
  }

  lemma {:induction false} AllAreOpen(ids: seq<string>, store: Store)
    ensures OpenIn(OpenPositions(ids, store)) == OpenCount(ids, store)
  {
    if ids != [] {
      AllAreOpen(Init(ids), store);
      var before := OpenPositions(Init(ids), store);
      if Last(ids) in store && store[Last(ids)].IsOpen() {
        assert Init(before + [store[Last(ids)]]) == before;
      } else {
        assert before + [] == before;
      }
    }
  }

  lemma PlanMeansRoom(c: Config, b: Book, signal: V.ExecutionSignal, halted: bool, market: Option<Market>)
    requires Plan(c, OpenPositions(b.ids, b.store), signal, halted, market).Ok?
    ensures OpenCount(b.ids, b.store) < c.risk.maxOpenPositions && OpenCount(b.ids, b.store) < c.portfolio.maxPositions
  {
    hide Exposure;
    AllAreOpen(b.ids, b.store);
  }

  lemma PassKeepsBook(b: Book, feed: Feed)
    requires ValidStore(b.ids, b.store)
    ensures var after := WholePass(b.ids, b.store, feed).store;
      ValidStore(b.ids, after) && OpenCount(b.ids, after) <= OpenCount(b.ids, b.store)
  {
    var ps := OpenPositions(b.ids, b.store);
    OpenPositionsAreListed(b.ids, b.store);
    PassOpensNothing(b.store, ps, feed, |ps|);
    FewerOpen(b.ids, b.store, WholePass(b.ids, b.store, feed).store);
  }

  /** In every run there are never more open positions than the smaller of the two limits. */
  lemma {:induction false} OpenPositionsStayWithinLimit(c: Config, es: seq<Event>)
    ensures ValidStore(After(c, es).ids, After(c, es).store)
    ensures var b := After(c, es);
      OpenCount(b.ids, b.store) <= Max(0, Min(c.risk.maxOpenPositions, c.portfolio.maxPositions))
  {
    if es != [] {
      OpenPositionsStayWithinLimit(c, Init(es));
      StepKeepsLimit(c, After(c, Init(es)), Last(es));
    }
  }

  lemma StepKeepsLimit(c: Config, b: Book, e: Event)
    requires ValidStore(b.ids, b.store)
    requires OpenCount(b.ids, b.store) <= Max(0, Min(c.risk.maxOpenPositions, c.portfolio.maxPositions))
    ensures ValidStore(Step(c, b, e).ids, Step(c, b, e).store)
    ensures var b' := Step(c, b, e);
      OpenCount(b'.ids, b'.store) <= Max(0, Min(c.risk.maxOpenPositions, c.portfolio.maxPositions))
  {
    hide ValidStore;
    hide OpenPositions;
    match e
    case MonitorPass(feed) => PassKeepsBook(b, feed);
    case Execute(signal, accepted, halted, market, result, id) =>
      var plan := Plan(c, OpenPositions(b.ids, b.store), signal, halted, market);
      if plan.Ok? && result.Some? {
        PlanMeansRoom(c, b, signal, halted, market);
        PlannedPrice(c, OpenPositions(b.ids, b.store), signal, halted, market);
        hide Plan;
        SavingKeepsStoreValid(b, Opened(signal, signal.price.value, plan.value, result.value, id));
        SavingAddsAtMostOne(b, Opened(signal, signal.price.value, plan.value, result.value, id));
      }
  }

  // ---------- Break even and trailing in the composed system ----------

  ghost predicate NoneTrails(b: Book) {
    ValidStore(b.ids, b.store) && forall id :: id in b.store ==> NoEntryAtr(b.store[id])
  }

  lemma StepKeepsNoneTrailing(c: Config, b: Book, e: Event)
    requires NoneTrails(b)
    ensures NoneTrails(Step(c, b, e))
    ensures e.MonitorPass? ==> StopsFrozen(b.store, Step(c, b, e).store)
  {
    match e
    case MonitorPass(feed) =>
      var ps := OpenPositions(b.ids, b.store);
      OpenPositionsAreListed(b.ids, b.store);
      PassFreezesStops(b.store, ps, feed, |ps|);
    case Execute(signal, accepted, halted, market, result, id) =>
      var plan := Plan(c, OpenPositions(b.ids, b.store), signal, halted, market);
      hide OpenPositions;
      if accepted && plan.Ok? && result.Some? {
        PlannedPrice(c, OpenPositions(b.ids, b.store), signal, halted, market);
        hide Plan;
        var p := Opened(signal, signal.price.value, plan.value, result.value, id);
        if p.Valid() {
          SavingKeepsStoreValid(b, p);
        }
      }
  }

  /** The engine records no entry ATR, so in every run of engine and monitor together - whatever ATR the
      monitor may be supplied with - no position ever breaks even or trails. */
  lemma {:induction false} NoPositionEverTrails(c: Config, es: seq<Event>)
    ensures NoneTrails(After(c, es))
  {
    if es != [] {
      NoPositionEverTrails(c, Init(es));
      StepKeepsNoneTrailing(c, After(c, Init(es)), Last(es));
    }
  }

  /** And a monitoring pass after any run leaves every stop where the engine put it. */
  lemma MonitoringNeverMovesAStop(c: Config, es: seq<Event>, feed: Feed)
    ensures StopsFrozen(After(c, es).store, Step(c, After(c, es), MonitorPass(feed)).store)
  {
    NoPositionEverTrails(c, es);
    StepKeepsNoneTrailing(c, After(c, es), MonitorPass(feed));
  }

  // ---------- What a filled order does to the next signal ----------

  /** The price at which the engine records the position. */
  function FillPrice(result: B.OrderResult, signal: V.ExecutionSignal): Option<real> {
    if result.avgPrice.Some? && result.avgPrice.value != 0.0 then result.avgPrice else signal.price
  }

  /** The order was planned, sent and confirmed in full at a price e; its position is saved under a new id. */
  predicate FillsAsSent(c: Config, b: Book, signal: V.ExecutionSignal, market: Market, result: B.OrderResult,
                        id: string, e: real)
  {
    var plan := Plan(c, OpenPositions(b.ids, b.store), signal, false, Some(market));
    plan.Ok? && result.filledAmount == plan.value.amount && FillPrice(result, signal) == Some(e) && e > 0.0
    && id !in b.store
  }

  lemma FillIsSaved(c: Config, b: Book, signal: V.ExecutionSignal, market: Market, result: B.OrderResult, id: string,
                    e: real)
    requires ValidStore(b.ids, b.store) && FillsAsSent(c, b, signal, market, result, id, e)
    ensures signal.price.Some? && signal.price.value > 0.0
    ensures var b' := AfterExecution(c, b, signal, true, false, Some(market), Some(result), id);
      var distance := StopDistance(c, market.atr, signal.price.value);
      distance > 0.0 && market.balance * c.riskPct / distance > 0.0
      && exists p: LivePosition ::
           OpenPositions(b'.ids, b'.store) == OpenPositions(b.ids, b.store) + [p] && p.IsOpen() && p.Valid()
           && p.symbol == signal.symbol && p.units == Units(market.balance, c.riskPct, distance) && p.entryPrice == e
  {
    hide AssessRisk;
    hide AssessPortfolio;
    hide OpenPositions;
    hide TargetPrice;
    var plan := Plan(c, OpenPositions(b.ids, b.store), signal, false, Some(market));
    var p := ExecutionPipeline.Opened(signal, signal.price.value, plan.value, result, id);
    assert p.Valid();
    assert p.id !in b.ids;
    OpenAfterSaving(b.ids, b.store, p);
  }

  lemma StakeAfterFill(ps: seq<LivePosition>, p: LivePosition, balance: real, riskPct: real, distance: real, cap: real)
    requires p.IsOpen() && distance > 0.0 && balance > 0.0 && p.units == Units(balance, riskPct, distance)
    requires forall q :: q in ps ==> q.Valid()
    ensures riskPct * p.entryPrice >= cap * distance ==> Exposure(ps + [p], Some(p.symbol)) >= cap * balance
    ensures Exposure(ps, Some(p.symbol)) == 0.0 ==>
      (Exposure(ps + [p], Some(p.symbol)) >= cap * balance <==> riskPct * p.entryPrice >= cap * distance)
  {
    OnePositionMore(ps, p, p.symbol);
    ExposureIsNonnegative(ps, Some(p.symbol));
    TradeReachesCapIff(p.entryPrice, distance, balance, riskPct, cap);
    hide Exposure;
    hide Units;
  }

  lemma FullSymbolIsRefused(c: Config, open: seq<LivePosition>, next: V.ExecutionSignal, halted: bool, later: Market)
    requires !BelowCap(Exposure(open, Some(next.symbol)), c.risk.maxSymbolExposure, later.balance)
    ensures Plan(c, open, next, halted, Some(later)).Err?
  {
    RiskApprovedIff(c.risk, RiskState(later.balance, open, c.consecutiveLosses, c.dailyStart), next.symbol);
    hide AssessRisk;
    hide AssessPortfolio;
    hide BelowCap;
    hide Exposure;
    hide StopPrice;
    hide TargetPrice;
    hide Units;
    hide StopDistance;
  }

  lemma CapStaysReached(exposure: real, cap: real, balance: real, later: real)
    requires exposure >= 0.0 && exposure >= cap * balance && 0.0 < later <= balance
    ensures !BelowCap(exposure, cap, later)
  {
    if cap >= 0.0 {
      assert cap * balance - cap * later == cap * (balance - later);
    } else {
      PositiveProduct(-cap, later);
    }
  }

  /** The open positions with one more that was sized by the risk share and filled at its entry price. */
  lemma FilledPositionRefuses(c: Config, ps: seq<LivePosition>, p: LivePosition, balance: real, distance: real,
                              next: V.ExecutionSignal, halted: bool, later: Market)
    requires (forall q :: q in ps ==> q.Valid()) && p.Valid() && p.IsOpen() && next.symbol == p.symbol
    requires distance > 0.0 && 0.0 < later.balance <= balance && p.units == Units(balance, c.riskPct, distance)
    requires c.riskPct * p.entryPrice >= c.risk.maxSymbolExposure * distance
    ensures Plan(c, ps + [p], next, halted, Some(later)).Err?
  {
    hide Plan;
    hide Exposure;
    hide BelowCap;
    StakeAfterFill(ps, p, balance, c.riskPct, distance, c.risk.maxSymbolExposure);
    ExposureIsNonnegative(ps + [p], Some(p.symbol));
    CapStaysReached(Exposure(ps + [p], Some(p.symbol)), c.risk.maxSymbolExposure, balance, later.balance);
    FullSymbolIsRefused(c, ps + [p], next, halted, later);
  }

  lemma OpenOnesAreValid(b: Book)
    requires NoneTrails(b)
    ensures forall q :: q in OpenPositions(b.ids, b.store) ==> q.Valid()
  {
    hide LivePosition.Valid;
    OpenPositionsAreStored(b.ids, b.store);
  }

  /** Once an order has filled as sent at a price e, every further signal for its symbol is refused, as long as the
      balance has not grown, if the risk share of e is at least the symbol's cap times the stop distance. */
  lemma FilledOrderBlocksItsSymbol(c: Config, b: Book, signal: V.ExecutionSignal, market: Market, result: B.OrderResult,
                                   id: string, e: real, next: V.ExecutionSignal, halted: bool, later: Market)
    requires NoneTrails(b) && FillsAsSent(c, b, signal, market, result, id, e)
    requires next.symbol == signal.symbol && 0.0 < later.balance <= market.balance
    requires signal.price.Some?
    requires c.riskPct * e >= c.risk.maxSymbolExposure * StopDistance(c, market.atr, signal.price.value)
    ensures var b' := AfterExecution(c, b, signal, true, false, Some(market), Some(result), id);
      Plan(c, OpenPositions(b'.ids, b'.store), next, halted, Some(later)).Err?
  {
    hide AfterExecution;
    hide Plan;
    hide FillsAsSent;
    hide Units;
    hide StopDistance;
    hide OpenPositions;
    hide LivePosition.Valid;
    hide ValidStore;
    var ps, distance := OpenPositions(b.ids, b.store), StopDistance(c, market.atr, signal.price.value);
    OpenOnesAreValid(b);
    FillIsSaved(c, b, signal, market, result, id, e);
    var b' := AfterExecution(c, b, signal, true, false, Some(market), Some(result), id);
    var p: LivePosition :|
      OpenPositions(b'.ids, b'.store) == ps + [p] && p.IsOpen() && p.Valid() && p.symbol == signal.symbol
      && p.units == Units(market.balance, c.riskPct, distance) && p.entryPrice == e;
    FilledPositionRefuses(c, ps, p, market.balance, distance, next, halted, later);
  }

  /** And so it is after any run of executions and monitoring passes. */
  lemma FilledOrderBlocksItsSymbolAfterAnyRun(c: Config, es: seq<Event>, signal: V.ExecutionSignal, market: Market,
                                              result: B.OrderResult, id: string, e: real, next: V.ExecutionSignal,
                                              halted: bool, later: Market)
    requires FillsAsSent(c, After(c, es), signal, market, result, id, e) && signal.price.Some?
    requires next.symbol == signal.symbol && 0.0 < later.balance <= market.balance
    requires c.riskPct * e >= c.risk.maxSymbolExposure * StopDistance(c, market.atr, signal.price.value)
    ensures var b := After(c, es + [Execute(signal, true, false, Some(market), Some(result), id)]);
      Plan(c, OpenPositions(b.ids, b.store), next, halted, Some(later)).Err?
  {
    assert Init(es + [Execute(signal, true, false, Some(market), Some(result), id)]) == es;
    NoPositionEverTrails(c, es);
    hide AfterExecution;
    hide NoneTrails;
    hide FillsAsSent;
    hide Plan;
    FilledOrderBlocksItsSymbol(c, After(c, es), signal, market, result, id, e, next, halted, later);
  }
}
