/** The backtest engine: one pass over the candles that opens, closes and accounts for positions. */
module Backtest {
  import opened Common

  datatype Side = Buy | Sell | Neutral

  datatype Signal = Signal(side: Side, confidence: real)

  datatype Candle = Candle(high: real, low: real, close: real)

  datatype Config = Config(initialBalance: real, riskPct: real, maxTrades: nat)
  {
    /** The constructor's checks. */
    predicate Valid() {
      initialBalance > 0.0 && 0.0 < riskPct <= 0.02
    }
  }

  /** The inputs of a run; the strategy answers at every candle with a signal or nothing. */
  datatype Setup = Setup(candles: seq<Candle>, signals: nat -> Option<Signal>, config: Config)

  datatype Reason = StopLoss | ExitSignal | MaxTradesReached | EndOfData

  /** Times are candle indices. */
  datatype Position = Position(side: Side, entryAt: nat, entryPrice: real, units: real, slPrice: real)

  datatype Trade = Trade(position: Position, exitAt: nat, exitPrice: real, pnl: real, reason: Reason)

  datatype BacktestError = InsufficientCandles | InvalidTrade

  datatype Report = Report(trades: seq<Trade>, equity: seq<real>)

  const MIN_CANDLES := 50
  const ATR_PERIOD := 14

  // ---------- Average true range ----------

  function Distance(a: real, b: real): real {
    if a > b then a - b else b - a
  }

  function TrueRange(c: Candle, previousClose: real): real {
    Larger(Larger(c.high - c.low, Distance(c.high, previousClose)), Distance(c.low, previousClose))
  }

  function SumTrueRange(candles: seq<Candle>, from: nat, to: nat): real
    requires 1 <= from && to <= |candles|
  {
    if to <= from then 0.0 else SumTrueRange(candles, from, to - 1) + TrueRange(candles[to - 1], candles[to - 2].close)
  }

  /** Mean true range of up to ATR_PERIOD candles ending at i; zero with fewer than two of them. */
  function AverageTrueRange(candles: seq<Candle>, i: nat): real
    requires i < |candles|
  {
    var start := Max(0, i - ATR_PERIOD);
    if i - start < 2 then 0.0 else SumTrueRange(candles, start + 1, i + 1) / (i - start) as real
  }

  method CalcAtr(candles: seq<Candle>, i: nat) returns (atr: real)
    requires i < |candles|
    ensures atr == AverageTrueRange(candles, i)
  {
    var start := Max(0, i - ATR_PERIOD);
    if i - start < 2 {
      return 0.0;
    }
    var total, count := 0.0, 0;
    for j := start + 1 to i + 1
      invariant total == SumTrueRange(candles, start + 1, j) && count == j - start - 1
    {
      total := total + TrueRange(candles[j], candles[j - 1].close);
      count := count + 1;
    }
    atr := if count > 0 then total / count as real else 0.0;
  }

  /** All prices of candles from .. to lie in [lo, hi]. */
  predicate PricesWithin(candles: seq<Candle>, from: nat, to: nat, lo: real, hi: real)
    requires to <= |candles|
  {
    forall j :: from <= j < to ==> lo <= candles[j].low <= candles[j].high <= hi && lo <= candles[j].close <= hi
  }

  lemma {:induction false} SumTrueRangeBounds(candles: seq<Candle>, from: nat, to: nat, lo: real, hi: real)
    requires 1 <= from <= to <= |candles| && PricesWithin(candles, from - 1, to, lo, hi)
    ensures 0.0 <= SumTrueRange(candles, from, to) <= Prod((to - from) as real, hi - lo)
  {
    hide Prod;
    hide TrueRange;
    if from == to {
      NoRange(hi - lo);
    } else {
      SumTrueRangeBounds(candles, from, to - 1, lo, hi);
      TrueRangeBounds(candles[to - 1], candles[to - 2], lo, hi);
      OneMoreRange(SumTrueRange(candles, from, to - 1), TrueRange(candles[to - 1], candles[to - 2].close),
                   (to - 1 - from) as real, hi - lo);
    }
  }

  lemma TrueRangeBounds(c: Candle, d: Candle, lo: real, hi: real)
    requires lo <= c.low <= c.high <= hi && lo <= d.close <= hi
    ensures 0.0 <= TrueRange(c, d.close) <= hi - lo
  {
  }

  lemma OneMoreRange(sum: real, range: real, n: real, width: real)
    requires 0.0 <= sum <= Prod(n, width) && 0.0 <= range <= width
    ensures 0.0 <= sum + range <= Prod(n + 1.0, width)
  {
  }

  lemma NoRange(width: real)
    ensures Prod(0.0, width) == 0.0
  {
  }

  lemma DivideBounds(sum: real, n: real, width: real)
    requires n > 0.0 && 0.0 <= sum <= Prod(n, width)
    ensures 0.0 <= sum / n <= width
  {
    assert sum / n * n == sum;
  }

  /** The average true range never leaves the price range of its window. */
  lemma AtrWithinPriceRange(candles: seq<Candle>, i: nat, lo: real, hi: real)
    requires i < |candles| && lo <= hi && PricesWithin(candles, Max(0, i - ATR_PERIOD), i + 1, lo, hi)
    ensures 0.0 <= AverageTrueRange(candles, i) <= hi - lo
  {
    hide SumTrueRange;
    hide Prod;
    var start := Max(0, i - ATR_PERIOD);
    if i - start >= 2 {
      SumTrueRangeBounds(candles, start + 1, i + 1, lo, hi);
      DivideBounds(SumTrueRange(candles, start + 1, i + 1), (i - start) as real, hi - lo);
    }
  }

  // ---------- Opening and closing ----------

  /** The strategy asks to enter at candle i and the close is a usable price. */
  predicate IsEntry(s: Setup, i: nat) {
    i < |s.candles| && s.signals(i).Some? && s.signals(i).value.side != Neutral && s.signals(i).value.confidence >= 0.5
    && s.candles[i].close > 0.0
  }

  function StopDistance(atr: real, entry: real): real {
    Larger(atr * 1.5, entry * 0.005)
  }

  function StopPrice(side: Side, entry: real, distance: real): real {
    var sl := if side == Buy then entry - distance else entry + distance;
    if sl <= 0.0 then entry * 0.95 else sl
  }

  /** A position worth risk_pct / 1% of the balance. */
  function RawUnits(balance: real, riskPct: real, entry: real): real
    requires entry > 0.0
  {
    balance * riskPct / 0.01 / entry
  }

  function Rounded(units: real): real {
    RoundHalfEven(units * 100000.0) as real / 100000.0
  }

  /** Units are multiples of 10^-5. */
  function Units(balance: real, riskPct: real, entry: real): real
    requires entry > 0.0
  {
    Rounded(RawUnits(balance, riskPct, entry))
  }

  function Opened(s: Setup, i: nat, balance: real): (p: Position)
    requires IsEntry(s, i)
    ensures p.entryAt == i
  {
    var side, entry := s.signals(i).value.side, s.candles[i].close;
    Position(side, i, entry, Units(balance, s.config.riskPct, entry),
             StopPrice(side, entry, StopDistance(AverageTrueRange(s.candles, i), entry)))
  }

  predicate StopHit(c: Candle, p: Position) {
    if p.side == Buy then c.low <= p.slPrice else c.high >= p.slPrice
  }

  predicate ExitSignalled(signal: Option<Signal>, p: Position) {
    signal.Some? && signal.value.side != p.side && signal.value.side != Neutral && signal.value.confidence >= 0.5
  }

  predicate Exits(s: Setup, p: Position, i: nat)
    requires i < |s.candles|
  {
    StopHit(s.candles[i], p) || ExitSignalled(s.signals(i), p)
  }

  function ExitReason(s: Setup, p: Position, i: nat): Reason
    requires i < |s.candles|
  {
    if StopHit(s.candles[i], p) then StopLoss else ExitSignal
  }

  function Move(p: Position, exit: real): real {
    if p.side == Buy then exit - p.entryPrice else p.entryPrice - exit
  }

  function Pnl(p: Position, exit: real): real {
    Move(p, exit) * p.units
  }

  /** Profit and loss are multiples of 0.01. */
  function Cents(x: real): real {
    RoundHalfEven(x * 100.0) as real / 100.0
  }

  /** Positions are closed at a candle's close, whatever the reason; a trade without positive units and
      prices raises. */
  function Closed(s: Setup, p: Position, i: nat, reason: Reason): (r: Result<Trade, BacktestError>)
    requires i < |s.candles|
    ensures r.Ok? ==> r.value.position == p && r.value.exitAt == i && r.value.reason == reason
  {
    var exit := s.candles[i].close;
    if p.units <= 0.0 || p.entryPrice <= 0.0 || exit <= 0.0 then Err(InvalidTrade)
    else Ok(Trade(p, i, exit, Cents(Pnl(p, exit)), reason))
  }

  // ---------- The ledger, jumping from entry to exit ----------

  /** The first entry at or after candle i, or the end. */
  function NextEntry(s: Setup, i: nat): (e: nat)
    requires i <= |s.candles|
    ensures i <= e <= |s.candles| && (e < |s.candles| ==> IsEntry(s, e))
    ensures forall k: nat :: i <= k < e ==> !IsEntry(s, k)
    decreases |s.candles| - i
  {
    if i == |s.candles| || IsEntry(s, i) then i else NextEntry(s, i + 1)
  }

  /** The first candle at or after i that ends position p, or the end. */
  function FirstExit(s: Setup, p: Position, i: nat): (x: nat)
    requires i <= |s.candles|
    ensures i <= x <= |s.candles| && (x < |s.candles| ==> Exits(s, p, x))
    ensures forall k: nat :: i <= k < x ==> !Exits(s, p, k)
    decreases |s.candles| - i
  {
    if i == |s.candles| || Exits(s, p, i) then i else FirstExit(s, p, i + 1)
  }

  function Then(trades: seq<Trade>, rest: Result<seq<Trade>, BacktestError>): Result<seq<Trade>, BacktestError> {
    match rest
    case Ok(more) => Ok(trades + more)
    case Err(e) => Err(e)
  }

  function Single(t: Result<Trade, BacktestError>): Result<seq<Trade>, BacktestError> {
    match t
    case Ok(trade) => Ok([trade])
    case Err(e) => Err(e)
  }

  predicate IsLast(c: Config, count: nat) {
    c.maxTrades > 0 && count >= c.maxTrades
  }

  /** The trades from candle i on with no position, `count` entries already made. */
  function FromFlat(s: Setup, i: nat, balance: real, count: nat): Result<seq<Trade>, BacktestError>
    requires i <= |s.candles|
    decreases |s.candles| - i
  {
    var e := NextEntry(s, i);
    if e == |s.candles| then Ok([])
    else if IsLast(s.config, count + 1) then Single(Closed(s, Opened(s, e, balance), e, MaxTradesReached))
    else FromHeld(s, Opened(s, e, balance), e + 1, balance, count + 1)
  }

  /** The trades from candle i on with position p open. */
  function FromHeld(s: Setup, p: Position, i: nat, balance: real, count: nat): Result<seq<Trade>, BacktestError>
    requires 0 < i <= |s.candles|
    decreases |s.candles| - i
  {
    var x := FirstExit(s, p, i);
    if x == |s.candles| then Single(Closed(s, p, x - 1, EndOfData))
    else match Closed(s, p, x, ExitReason(s, p, x))
      case Err(e) => Err(e)
      case Ok(t) => Then([t], FromFlat(s, x + 1, balance + t.pnl, count))
  }

  function Ledger(s: Setup): Result<seq<Trade>, BacktestError> {
    FromFlat(s, 0, s.config.initialBalance, 0)
  }

  function TotalPnl(trades: seq<Trade>): real {
    if trades == [] then 0.0 else TotalPnl(Init(trades)) + Last(trades).pnl
  }

  /** P&L of the trades closed before candle i. */
  function PnlBefore(trades: seq<Trade>, i: nat): real {
    if trades == [] then 0.0
    else PnlBefore(Init(trades), i) + if Last(trades).exitAt < i then Last(trades).pnl else 0.0
  }

  /** Point i is the initial balance plus the P&L of the trades closed before candle i. */
  predicate IsEquity(equity: seq<real>, trades: seq<Trade>, initial: real) {
    forall k :: 0 <= k < |equity| ==> equity[k] == initial + PnlBefore(trades, k)
  }

  // How the ledger unfolds at one candle.

  lemma StaysFlat(s: Setup, i: nat, balance: real, count: nat)
    requires i < |s.candles| && !IsEntry(s, i)
    ensures FromFlat(s, i, balance, count) == FromFlat(s, i + 1, balance, count)
  {
  }

  lemma Enters(s: Setup, i: nat, balance: real, count: nat)
    requires IsEntry(s, i)
    ensures FromFlat(s, i, balance, count) ==
      if IsLast(s.config, count + 1) then Single(Closed(s, Opened(s, i, balance), i, MaxTradesReached))
      else FromHeld(s, Opened(s, i, balance), i + 1, balance, count + 1)
  {
  }

  lemma StaysHeld(s: Setup, p: Position, i: nat, balance: real, count: nat)
    requires 0 < i < |s.candles| && !Exits(s, p, i)
    ensures FromHeld(s, p, i, balance, count) == FromHeld(s, p, i + 1, balance, count)
  {
  }

  lemma Leaves(s: Setup, p: Position, i: nat, balance: real, count: nat)
    requires 0 < i < |s.candles| && Exits(s, p, i)
    ensures var trade := Closed(s, p, i, ExitReason(s, p, i));
      FromHeld(s, p, i, balance, count) ==
      if trade.Err? then Err(trade.error) else Then([trade.value], FromFlat(s, i + 1, balance + trade.value.pnl, count))
  {
  }

  lemma LedgerEnds(s: Setup)
    requires s.candles != []
    ensures forall balance, count :: FromFlat(s, |s.candles|, balance, count) == Ok([])
    ensures forall p, balance, count ::
      FromHeld(s, p, |s.candles|, balance, count) == Single(Closed(s, p, |s.candles| - 1, EndOfData))
  {
  }

  // ---------- The same ledger, described ----------

  /** A trade entered on an entry signal with the given balance, and left at the first candle that ends it,
      at the end of the data, or on its own candle when it is the last one allowed. */
  predicate WellTraded(s: Setup, t: Trade, balance: real, last: bool) {
    var p := t.position;
    IsEntry(s, p.entryAt) && p == Opened(s, p.entryAt, balance) && p.units > 0.0 && t.exitPrice > 0.0
    && p.entryAt <= t.exitAt < |s.candles|
    && t.exitPrice == s.candles[t.exitAt].close && t.pnl == Cents(Pnl(p, t.exitPrice))
    && (forall j :: p.entryAt < j < t.exitAt ==> !Exits(s, p, j))
    && (if last then t.reason == MaxTradesReached && t.exitAt == p.entryAt
        else if p.entryAt < t.exitAt && Exits(s, p, t.exitAt) then t.reason == ExitReason(s, p, t.exitAt)
        else t.reason == EndOfData && t.exitAt == |s.candles| - 1)
  }

  predicate NoEntryBetween(s: Setup, from: nat, to: nat) {
    forall k :: from <= k < to ==> !IsEntry(s, k)
  }

  /** A list of trades from candle `from` on, `count` having gone before: in order, apart from each other, and
      with no entry signal missed while flat and still allowed to trade. */
  predicate WellKept(s: Setup, trades: seq<Trade>, from: nat, balance: real, count: nat) {
    if trades == [] then IsLast(s.config, count) || NoEntryBetween(s, from, |s.candles|)
    else
      !IsLast(s.config, count) && from <= trades[0].position.entryAt
      && NoEntryBetween(s, from, trades[0].position.entryAt)
      && WellTraded(s, trades[0], balance, IsLast(s.config, count + 1))
      && WellKept(s, trades[1..], trades[0].exitAt + 1, balance + trades[0].pnl, count + 1)
  }

  /** The reason and candle at which the ledger closes a position entered at e. */
  function Exit(s: Setup, p: Position, last: bool): (int, Reason)
    requires p.entryAt < |s.candles|
  {
    var x := FirstExit(s, p, p.entryAt + 1);
    if last then (p.entryAt, MaxTradesReached)
    else if x == |s.candles| then (x - 1, EndOfData)
    else (x, ExitReason(s, p, x))
  }

  lemma ClosedIsWellTraded(s: Setup, e: nat, balance: real, last: bool)
    requires IsEntry(s, e)
    ensures var p := Opened(s, e, balance); var (x, reason) := Exit(s, p, last);
      e <= x < |s.candles|
      && (Closed(s, p, x, reason).Ok? ==> WellTraded(s, Closed(s, p, x, reason).value, balance, last))
  {
    hide AverageTrueRange;
    hide Units;
    hide StopPrice;
    hide Cents;
  }

  lemma WellTradedIsClosed(s: Setup, t: Trade, balance: real, last: bool)
    requires WellTraded(s, t, balance, last)
    ensures IsEntry(s, t.position.entryAt) && t.position == Opened(s, t.position.entryAt, balance)
      && t.exitAt < |s.candles|
    ensures Exit(s, t.position, last) == (t.exitAt, t.reason) && Closed(s, t.position, t.exitAt, t.reason) == Ok(t)
  {
    hide AverageTrueRange;
    hide Units;
    hide StopPrice;
    hide Cents;
  }

  /** The ledger from a position on: its trade, then the ledger after it. */
  function FromPosition(s: Setup, p: Position, balance: real, count: nat, last: bool): Result<seq<Trade>, BacktestError>
    requires p.entryAt < |s.candles|
  {
    var (x, reason) := Exit(s, p, last);
    var trade := Closed(s, p, x, reason);
    if trade.Err? then Err(trade.error)
    else if last then Ok([trade.value])
    else Then([trade.value], FromFlat(s, x + 1, balance + trade.value.pnl, count))
  }

  lemma UnfoldHeld(s: Setup, p: Position, balance: real, count: nat)
    requires p.entryAt < |s.candles|
    ensures FromHeld(s, p, p.entryAt + 1, balance, count) == FromPosition(s, p, balance, count, false)
  {
    hide Closed;
    hide Exits;
    hide ExitReason;
    hide FirstExit;
    if FirstExit(s, p, p.entryAt + 1) == |s.candles| {
      HeldToTheEnd(s, p, balance, count);
    } else {
      hide Then;
      hide FromFlat;
    }
  }

  lemma HeldToTheEnd(s: Setup, p: Position, balance: real, count: nat)
    requires p.entryAt < |s.candles| && FirstExit(s, p, p.entryAt + 1) == |s.candles|
    ensures FromHeld(s, p, p.entryAt + 1, balance, count) == FromPosition(s, p, balance, count, false)
  {
    hide Closed;
    hide Exits;
    hide ExitReason;
    hide FirstExit;
    LedgerEnds(s);
    var last := Closed(s, p, |s.candles| - 1, EndOfData);
    assert last.Ok? ==> [last.value] + [] == [last.value];
  }

  lemma UnfoldLedger(s: Setup, i: nat, balance: real, count: nat)
    requires i <= |s.candles| && NextEntry(s, i) < |s.candles|
    ensures FromFlat(s, i, balance, count) ==
      FromPosition(s, Opened(s, NextEntry(s, i), balance), balance, count + 1, IsLast(s.config, count + 1))
  {
    hide Closed;
    hide Opened;
    hide FromHeld;
    hide FirstExit;
    UnfoldHeld(s, Opened(s, NextEntry(s, i), balance), balance, count + 1);
  }

  lemma {:induction false} LedgerIsWellKept(s: Setup, i: nat, balance: real, count: nat)
    requires i <= |s.candles| && !IsLast(s.config, count)
    ensures var r := FromFlat(s, i, balance, count); r.Ok? ==> WellKept(s, r.value, i, balance, count)
    decreases |s.candles| - i
  {
    hide WellTraded;
    hide Closed;
    hide Opened;
    hide IsEntry;
    hide Exit;
    var e, r := NextEntry(s, i), FromFlat(s, i, balance, count);
    if e < |s.candles| && r.Ok? {
      var p, last := Opened(s, e, balance), IsLast(s.config, count + 1);
      UnfoldLedger(s, i, balance, count);
      ClosedIsWellTraded(s, e, balance, last);
      var (x, reason) := Exit(s, p, last);
      var t := Closed(s, p, x, reason).value;
      assert r == FromPosition(s, p, balance, count + 1, last);
      if !last {
        LedgerIsWellKept(s, x + 1, balance + t.pnl, count + 1);
        assert r.value[1..] == FromFlat(s, x + 1, balance + t.pnl, count + 1).value;
      }
    }
  }

  lemma FirstEntryIsNext(s: Setup, i: nat, e: nat)
    requires i <= e && IsEntry(s, e) && NoEntryBetween(s, i, e)
    ensures NextEntry(s, i) == e < |s.candles|
  {
  }

  lemma TradeComesFirst(s: Setup, t: Trade, balance: real, count: nat, last: bool)
    requires t.position.entryAt < |s.candles| && t.exitAt < |s.candles|
    requires Exit(s, t.position, last) == (t.exitAt, t.reason) && Closed(s, t.position, t.exitAt, t.reason) == Ok(t)
    ensures FromPosition(s, t.position, balance, count, last) ==
      if last then Ok([t]) else Then([t], FromFlat(s, t.exitAt + 1, balance + t.pnl, count))
  {
    hide Exit;
    hide Closed;
    hide FromFlat;
  }

  lemma NoEntryMeansNoTrade(s: Setup, i: nat, balance: real, count: nat)
    requires i <= |s.candles| && NoEntryBetween(s, i, |s.candles|)
    ensures FromFlat(s, i, balance, count) == Ok([])
  {
  }

  lemma {:induction false} WellKeptIsLedger(s: Setup, trades: seq<Trade>, i: nat, balance: real, count: nat)
    requires i <= |s.candles| && !IsLast(s.config, count) && WellKept(s, trades, i, balance, count)
    ensures FromFlat(s, i, balance, count) == Ok(trades)
  {
    hide WellTraded;
    hide Closed;
    hide IsEntry;
    hide Exit;
    hide FromFlat;
    if trades == [] {
      NoEntryMeansNoTrade(s, i, balance, count);
    } else {
      var t, last := trades[0], IsLast(s.config, count + 1);
      WellTradedIsClosed(s, t, balance, last);
      FirstEntryIsNext(s, i, t.position.entryAt);
      UnfoldLedger(s, i, balance, count);
      if !last {
        WellKeptIsLedger(s, trades[1..], t.exitAt + 1, balance + t.pnl, count + 1);
      }
      assert last ==> trades[1..] == [] && trades == [t];
      assert trades == [t] + trades[1..];
      TradeComesFirst(s, t, balance, count + 1, last);
    }
  }

  /** The engine's ledger is the one well-kept list of trades there is, and it fails when there is none. */
  lemma LedgerIffWellKept(s: Setup, trades: seq<Trade>)
    ensures Ledger(s) == Ok(trades) <==> WellKept(s, trades, 0, s.config.initialBalance, 0)
  {
    LedgerIsWellKept(s, 0, s.config.initialBalance, 0);
    if WellKept(s, trades, 0, s.config.initialBalance, 0) {
      WellKeptIsLedger(s, trades, 0, s.config.initialBalance, 0);
    }
  }

  // ---------- The loop of the engine ----------

  function Rest(s: Setup, position: Option<Position>, i: nat, balance: real,
                count: nat): Result<seq<Trade>, BacktestError>
    requires i <= |s.candles| && (position.Some? ==> 0 < i)
  {
    if position.Some? then FromHeld(s, position.value, i, balance, count) else FromFlat(s, i, balance, count)
  }

  predicate AllClosedBefore(trades: seq<Trade>, i: nat) {
    forall k :: 0 <= k < |trades| ==> trades[k].exitAt < i
  }

  lemma {:induction false} PnlBeforeIsTotal(trades: seq<Trade>, i: nat)
    requires AllClosedBefore(trades, i)
    ensures PnlBefore(trades, i) == TotalPnl(trades)
  {
    if trades != [] {
      PnlBeforeIsTotal(Init(trades), i);
    }
  }

  /** The books of the loop before candle i: the trades so far, the equity points of earlier candles, and
      the balance. */
  predicate Balanced(equity: seq<real>, trades: seq<Trade>, balance: real, i: nat, initial: real) {
    IsEquity(equity, trades, initial) && AllClosedBefore(trades, i) && balance == initial + TotalPnl(trades)
  }

  lemma AddPoint(equity: seq<real>, trades: seq<Trade>, balance: real, initial: real)
    requires Balanced(equity, trades, balance, |equity|, initial)
    ensures Balanced(equity + [balance], trades, balance, |equity| + 1, initial)
  {
    PnlBeforeIsTotal(trades, |equity|);
  }

  lemma BooksHoldEquity(equity: seq<real>, trades: seq<Trade>, balance: real, i: nat, initial: real)
    requires Balanced(equity, trades, balance, i, initial)
    ensures IsEquity(equity, trades, initial)
  {
  }

  /** A trade closed at candle i changes no equity point up to i. */
  lemma AddTrade(equity: seq<real>, trades: seq<Trade>, balance: real, t: Trade, i: nat, initial: real)
    requires Balanced(equity, trades, balance, i, initial) && |equity| <= t.exitAt + 1 && t.exitAt < i
    ensures Balanced(equity, trades + [t], balance + t.pnl, i, initial)
  {
    assert Init(trades + [t]) == trades;
  }

  lemma ThenNothing(rest: Result<seq<Trade>, BacktestError>)
    ensures Then([], rest) == rest
  {
    if rest.Ok? {
      assert [] + rest.value == rest.value;
    }
  }

  lemma ThenThen(a: seq<Trade>, t: Trade, rest: Result<seq<Trade>, BacktestError>)
    ensures Then(a, Then([t], rest)) == Then(a + [t], rest)
  {
    if rest.Ok? {
      assert a + ([t] + rest.value) == a + [t] + rest.value;
    }
  }

  /** Before candle i the loop is on course: its trades so far, and the ledger from its state on, make up the
      whole ledger. */
  predicate OnCourse(s: Setup, trades: seq<Trade>, position: Option<Position>, i: nat, balance: real, count: nat) {
    i <= |s.candles| && (position.Some? ==> 0 < i) && Ledger(s) == Then(trades, Rest(s, position, i, balance, count))
  }

  lemma CourseBegins(s: Setup)
    ensures OnCourse(s, [], None, 0, s.config.initialBalance, 0)
  {
    ThenNothing(Ledger(s));
  }

  lemma CourseGoesOn(s: Setup, trades: seq<Trade>, position: Option<Position>, i: nat, balance: real, count: nat)
    requires i < |s.candles| && OnCourse(s, trades, position, i, balance, count)
    requires if position.Some? then !Exits(s, position.value, i) else !IsEntry(s, i)
    ensures OnCourse(s, trades, position, i + 1, balance, count)
  {
    if position.Some? {
      StaysHeld(s, position.value, i, balance, count);
    } else {
      StaysFlat(s, i, balance, count);
    }
  }

  /** The ledger is these trades and one more, if that one can be closed. */
  predicate EndsWith(s: Setup, trades: seq<Trade>, last: Result<Trade, BacktestError>) {
    Ledger(s) == if last.Ok? then Ok(trades + [last.value]) else Err(last.error)
  }

  lemma CourseEnters(s: Setup, trades: seq<Trade>, i: nat, balance: real, count: nat)
    requires IsEntry(s, i) && OnCourse(s, trades, None, i, balance, count)
    ensures !IsLast(s.config, count + 1) ==> OnCourse(s, trades, Some(Opened(s, i, balance)), i + 1, balance, count + 1)
    ensures IsLast(s.config, count + 1) ==> EndsWith(s, trades, Closed(s, Opened(s, i, balance), i, MaxTradesReached))
  {
    Enters(s, i, balance, count);
  }

  lemma CourseLeaves(s: Setup, trades: seq<Trade>, p: Position, i: nat, balance: real, count: nat)
    requires i < |s.candles| && OnCourse(s, trades, Some(p), i, balance, count) && Exits(s, p, i)
    ensures var trade := Closed(s, p, i, ExitReason(s, p, i));
      if trade.Err? then Ledger(s) == Err(trade.error)
      else OnCourse(s, trades + [trade.value], None, i + 1, balance + trade.value.pnl, count)
  {
    Leaves(s, p, i, balance, count);
    var trade := Closed(s, p, i, ExitReason(s, p, i));
    if trade.Ok? {
      ThenThen(trades, trade.value, FromFlat(s, i + 1, balance + trade.value.pnl, count));
    }
  }

  lemma CourseEnds(s: Setup, trades: seq<Trade>, position: Option<Position>, balance: real, count: nat)
    requires s.candles != [] && OnCourse(s, trades, position, |s.candles|, balance, count)
    ensures if position.None? then Ledger(s) == Ok(trades)
            else EndsWith(s, trades, Closed(s, position.value, |s.candles| - 1, EndOfData))
  {
    LedgerEnds(s);
    assert trades + [] == trades;
  }

  lemma LedgerFails(s: Setup)
    requires Ledger(s).Err?
    ensures forall trades :: !WellKept(s, trades, 0, s.config.initialBalance, 0)
  {
    forall trades
      ensures !WellKept(s, trades, 0, s.config.initialBalance, 0)
    {
      LedgerIffWellKept(s, trades);
    }
  }

  /** Opens the position that the signal at candle i asks for. */
  method Enter(s: Setup, i: nat, balance: real) returns (p: Position)
    requires IsEntry(s, i)
    ensures p == Opened(s, i, balance)
  {
    var side, entry := s.signals(i).value.side, s.candles[i].close;
    var atr := CalcAtr(s.candles, i);
    hide AverageTrueRange;
    hide Units;
    p := Position(side, i, entry, Units(balance, s.config.riskPct, entry),
                  StopPrice(side, entry, StopDistance(atr, entry)));
  }

  /** Before candle i: on course, with balanced books and room for another trade. */
  predicate Underway(s: Setup, trades: seq<Trade>, equity: seq<real>, position: Option<Position>, i: nat, balance: real,
                     count: nat) {
    OnCourse(s, trades, position, i, balance, count) && Balanced(equity, trades, balance, i, s.config.initialBalance)
    && |equity| == i && !IsLast(s.config, count) && count == |trades| + if position.Some? then 1 else 0
  }

  /** The report of a run: the one well-kept list of trades, and for every candle reached the initial balance plus
      the P&L of the trades closed before it. */
  predicate IsReport(s: Setup, trades: seq<Trade>, equity: seq<real>) {
    WellKept(s, trades, 0, s.config.initialBalance, 0) && IsEquity(equity, trades, s.config.initialBalance)
    && |equity| == if IsLast(s.config, |trades|) then Last(trades).exitAt + 1 else |s.candles|
  }

  ghost predicate NoReport(s: Setup) {
    forall trades :: !WellKept(s, trades, 0, s.config.initialBalance, 0)
  }

  lemma RunBegins(s: Setup)
    ensures Underway(s, [], [], None, 0, s.config.initialBalance, 0)
  {
    CourseBegins(s);
    assert Balanced([], [], s.config.initialBalance, 0, s.config.initialBalance);
    hide OnCourse;
    hide Balanced;
  }

  lemma RunGoesOn(s: Setup, trades: seq<Trade>, equity: seq<real>, position: Option<Position>, i: nat, balance: real,
                  count: nat)
    requires i < |s.candles| && Underway(s, trades, equity, position, i, balance, count)
    requires if position.Some? then !Exits(s, position.value, i) else !IsEntry(s, i)
    ensures Underway(s, trades, equity + [balance], position, i + 1, balance, count)
  {
    CourseGoesOn(s, trades, position, i, balance, count);
    AddPoint(equity, trades, balance, s.config.initialBalance);
    hide OnCourse;
    hide Balanced;
  }

  lemma RunCloses(s: Setup, trades: seq<Trade>, equity: seq<real>, p: Position, i: nat, balance: real, count: nat)
    requires i < |s.candles| && Underway(s, trades, equity, Some(p), i, balance, count) && Exits(s, p, i)
    ensures var trade := Closed(s, p, i, ExitReason(s, p, i));
      if trade.Err? then trade.error == InvalidTrade && NoReport(s)
      else Underway(s, trades + [trade.value], equity + [balance], None, i + 1, balance + trade.value.pnl, count)
  {
    CourseLeaves(s, trades, p, i, balance, count);
    AddPoint(equity, trades, balance, s.config.initialBalance);
    var trade := Closed(s, p, i, ExitReason(s, p, i));
    if trade.Err? {
      LedgerFails(s);
    } else {
      AddTrade(equity + [balance], trades, balance, trade.value, i + 1, s.config.initialBalance);
    }
    hide OnCourse;
    hide Balanced;
    hide Ledger;
    hide WellKept;
  }

  lemma RunEnters(s: Setup, trades: seq<Trade>, equity: seq<real>, i: nat, balance: real, count: nat)
    requires IsEntry(s, i) && Underway(s, trades, equity, None, i, balance, count)
    ensures var p := Opened(s, i, balance); var trade := Closed(s, p, i, MaxTradesReached);
      if !IsLast(s.config, count + 1) then Underway(s, trades, equity + [balance], Some(p), i + 1, balance, count + 1)
      else if trade.Err? then trade.error == InvalidTrade && NoReport(s)
      else IsReport(s, trades + [trade.value], equity + [balance])
  {
    CourseEnters(s, trades, i, balance, count);
    AddPoint(equity, trades, balance, s.config.initialBalance);
    if IsLast(s.config, count + 1) {
      RunFinishes(s, trades, equity + [balance], Opened(s, i, balance), i, balance, MaxTradesReached);
    }
    hide OnCourse;
    hide Balanced;
    hide Opened;
    hide Closed;
    hide EndsWith;
    hide IsReport;
    hide NoReport;
  }

  /** The last trade of a run. */
  lemma RunFinishes(s: Setup, trades: seq<Trade>, equity: seq<real>, p: Position, i: nat, balance: real, reason: Reason)
    requires i < |s.candles| && EndsWith(s, trades, Closed(s, p, i, reason))
      && Balanced(equity, trades, balance, i + 1, s.config.initialBalance)
    requires |equity| == i + 1 && (IsLast(s.config, |trades| + 1) || i + 1 == |s.candles|)
    ensures var trade := Closed(s, p, i, reason);
      if trade.Err? then trade.error == InvalidTrade && NoReport(s) else IsReport(s, trades + [trade.value], equity)
  {
    var trade := Closed(s, p, i, reason);
    if trade.Err? {
      LedgerFails(s);
    } else {
      AddTrade(equity, trades, balance, trade.value, i + 1, s.config.initialBalance);
      BooksHoldEquity(equity, trades + [trade.value], balance + trade.value.pnl, i + 1, s.config.initialBalance);
      LedgerIffWellKept(s, trades + [trade.value]);
    }
    hide Balanced;
    hide Ledger;
    hide WellKept;
    hide IsEquity;
  }

  lemma RunEnds(s: Setup, trades: seq<Trade>, equity: seq<real>, position: Option<Position>, balance: real, count: nat)
    requires s.candles != [] && Underway(s, trades, equity, position, |s.candles|, balance, count)
    ensures if position.None? then IsReport(s, trades, equity)
            else
              var trade := Closed(s, position.value, |s.candles| - 1, EndOfData);
              if trade.Err? then trade.error == InvalidTrade && NoReport(s)
              else IsReport(s, trades + [trade.value], equity)
  {
    CourseEnds(s, trades, position, balance, count);
    if position.Some? {
      RunFinishes(s, trades, equity, position.value, |s.candles| - 1, balance, EndOfData);
    } else {
      BooksHoldEquity(equity, trades, balance, |s.candles|, s.config.initialBalance);
      LedgerIffWellKept(s, trades);
    }
    hide OnCourse;
    hide Balanced;
    hide EndsWith;
    hide Ledger;
    hide WellKept;
    hide IsEquity;
    hide Closed;
  }

  /** The engine: one candle at a time, it finds the one well-kept list of trades - or fails when there is
      none, because some trade would have no units or no price. */
  method Run(s: Setup) returns (r: Result<Report, BacktestError>)
    requires s.config.Valid()
    ensures |s.candles| < MIN_CANDLES ==> r == Err(InsufficientCandles)
    ensures |s.candles| >= MIN_CANDLES ==> match r
      case Err(e) => e == InvalidTrade && NoReport(s)
      case Ok(report) => IsReport(s, report.trades, report.equity)
  {
    if |s.candles| < MIN_CANDLES {
      return Err(InsufficientCandles);
    }
    var trades: seq<Trade>, equity: seq<real> := [], [];
    var balance := s.config.initialBalance;
    var position: Option<Position> := None;
    var tradeCount := 0;
    RunBegins(s);
    hide Underway;
    hide IsReport;
    hide NoReport;
    hide Closed;
    hide Opened;
    for i := 0 to |s.candles|
      invariant Underway(s, trades, equity, position, i, balance, tradeCount)
    {
      var signal := s.signals(i);
      if position.Some? {
        var slHit := StopHit(s.candles[i], position.value);
        if slHit || ExitSignalled(signal, position.value) {
          RunCloses(s, trades, equity, position.value, i, balance, tradeCount);
          var trade := Closed(s, position.value, i, if slHit then StopLoss else ExitSignal);
          if trade.Err? {
            return Err(trade.error);
          }
          equity, trades, position := equity + [balance], trades + [trade.value], None;
          balance := balance + trade.value.pnl;
          continue;
        }
      }
      if position.Some? || !IsEntry(s, i) {
        RunGoesOn(s, trades, equity, position, i, balance, tradeCount);
      } else {
        RunEnters(s, trades, equity, i, balance, tradeCount);
      }
      equity := equity + [balance];
      if position.None? && signal.Some? {
        if signal.value.side != Neutral && signal.value.confidence >= 0.5 {
          if s.candles[i].close <= 0.0 {
            continue;
          }
          var entered := Enter(s, i, balance);
          position := Some(entered);
          tradeCount := tradeCount + 1;
        }
      }
      if IsLast(s.config, tradeCount) {
        if position.Some? {
          var trade := Closed(s, position.value, i, MaxTradesReached);
          if trade.Err? {
            return Err(trade.error);
          }
          trades := trades + [trade.value];
        }
        return Ok(Report(trades, equity));
      }
    }
    RunEnds(s, trades, equity, position, balance, tradeCount);
    if position.Some? {
      var trade := Closed(s, position.value, |s.candles| - 1, EndOfData);
      if trade.Err? {
        return Err(trade.error);
      }
      trades := trades + [trade.value];
    }
    r := Ok(Report(trades, equity));
  }

  // ---------- What holds of every ledger ----------

  /** Positions never overlap: each is closed once, at or after its entry and before the next one's. */
  lemma {:induction false} PositionsNeverOverlap(s: Setup, trades: seq<Trade>, from: nat, balance: real, count: nat)
    requires WellKept(s, trades, from, balance, count)
    ensures forall k :: 0 <= k < |trades| ==> from <= trades[k].position.entryAt <= trades[k].exitAt < |s.candles|
    ensures forall j, k :: 0 <= j < k < |trades| ==> trades[j].exitAt < trades[k].position.entryAt
  {
    hide IsEntry;
    hide Opened;
    hide Exits;
    if trades != [] {
      PositionsNeverOverlap(s, trades[1..], trades[0].exitAt + 1, balance + trades[0].pnl, count + 1);
      assert forall k :: 0 < k < |trades| ==> trades[k] == trades[1..][k - 1];
    }
  }

  /** With a limit there are at most that many trades, and the one that reaches the limit is closed on its
      own entry candle: it never makes or loses anything. */
  lemma {:induction false} LastAllowedTradeIsFlat(s: Setup, trades: seq<Trade>, from: nat, balance: real, count: nat)
    requires WellKept(s, trades, from, balance, count) && s.config.maxTrades > 0 && count <= s.config.maxTrades
    ensures count + |trades| <= s.config.maxTrades
    ensures trades != [] && count + |trades| == s.config.maxTrades ==>
      Last(trades).exitAt == Last(trades).position.entryAt && Last(trades).exitPrice == Last(trades).position.entryPrice
      && Last(trades).pnl == 0.0
  {
    hide IsEntry;
    hide Exits;
    hide AverageTrueRange;
    hide Units;
    hide StopPrice;
    if trades != [] {
      LastAllowedTradeIsFlat(s, trades[1..], trades[0].exitAt + 1, balance + trades[0].pnl, count + 1);
      if |trades| == 1 && count + 1 == s.config.maxTrades {
        NoMoveNoPnl(trades[0].position);
      }
    }
  }

  lemma NoMoveNoPnl(p: Position)
    ensures Cents(Pnl(p, p.entryPrice)) == 0.0
  {
    PnlAtEntry(p);
    CentsOfNothing();
    hide Pnl;
    hide Cents;
  }

  lemma PnlAtEntry(p: Position)
    ensures Pnl(p, p.entryPrice) == 0.0
  {
    NoGain(Move(p, p.entryPrice), p.units);
  }

  lemma NoGain(d: real, units: real)
    requires d == 0.0
    ensures d * units == 0.0
  {
  }

  lemma CentsOfNothing()
    ensures Cents(0.0) == 0.0
  {
  }

  /** A position gains exactly when the price moves its way, and two opposite positions cancel; what is booked
      is within half a cent of the gain. */
  lemma GainsIffPriceMovesItsWay(p: Position, exit: real)
    requires p.units > 0.0
    ensures Pnl(p, exit) > 0.0 <==> if p.side == Buy then exit > p.entryPrice else exit < p.entryPrice
    ensures p.side == Buy ==> Pnl(p, exit) + Pnl(p.(side := Sell), exit) == 0.0
    ensures -0.005 <= Cents(Pnl(p, exit)) - Pnl(p, exit) <= 0.005
  {
    SignOfProduct(Move(p, exit), p.units);
    OppositesCancel(Move(p, exit), Move(p.(side := Sell), exit), p.units);
    CentsAreNear(Pnl(p, exit));
    hide Cents;
  }

  lemma OppositesCancel(d: real, e: real, units: real)
    ensures d == -e ==> d * units + e * units == 0.0
  {
  }

  lemma SignOfProduct(d: real, units: real)
    requires units > 0.0
    ensures d * units > 0.0 <==> d > 0.0
  {
  }

  lemma CentsAreNear(x: real)
    ensures -0.005 <= Cents(x) - x <= 0.005
  {
    hide RoundHalfEven;
  }

  /** The initial stop is a positive price on the losing side of entry, at least half a percent away. */
  lemma StopStartsOnLosingSide(s: Setup, i: nat, balance: real)
    requires IsEntry(s, i)
    ensures Opened(s, i, balance).slPrice > 0.0
    ensures var p := Opened(s, i, balance);
      if p.side == Buy then p.slPrice <= 0.995 * p.entryPrice else p.slPrice >= 1.005 * p.entryPrice
  {
    hide AverageTrueRange;
    hide Units;
  }

  /** A position is worth risk_pct / 1% of the balance, twice the balance at most, up to the rounding of units. */
  lemma NotionalFollowsRisk(balance: real, riskPct: real, entry: real)
    requires balance >= 0.0 && 0.0 < riskPct <= 0.02 && entry > 0.0
    ensures var notional := Units(balance, riskPct, entry) * entry;
      -0.000005 * entry <= notional - balance * riskPct / 0.01 <= 0.000005 * entry
      && notional <= 2.0 * balance + 0.000005 * entry
  {
    RiskIsAtMostTwice(balance, riskPct);
    UnitsTimesEntry(balance, riskPct, entry);
    hide Units;
  }

  lemma UnitsTimesEntry(balance: real, riskPct: real, entry: real)
    requires entry > 0.0
    ensures -0.000005 * entry <= Units(balance, riskPct, entry) * entry - balance * riskPct / 0.01 <= 0.000005 * entry
  {
    RawUnitsTimesEntry(balance, riskPct, entry);
    RoundedIsNear(RawUnits(balance, riskPct, entry));
    var units, raw := Units(balance, riskPct, entry), RawUnits(balance, riskPct, entry);
    NearTimes(units, raw, units - raw, entry, balance * riskPct / 0.01);
  }

  lemma RawUnitsTimesEntry(balance: real, riskPct: real, entry: real)
    requires entry > 0.0
    ensures RawUnits(balance, riskPct, entry) * entry == balance * riskPct / 0.01
  {
    QuotientTimes(balance * riskPct / 0.01, entry);
  }

  lemma NearTimes(units: real, raw: real, d: real, entry: real, value: real)
    requires units == raw + d && -0.000005 <= d <= 0.000005 && entry > 0.0 && raw * entry == value
    ensures -0.000005 * entry <= units * entry - value <= 0.000005 * entry
  {
    SplitProduct(units, raw, d, entry);
    ScaleBounds(d, entry);
    var product, error := units * entry, d * entry;
    assert product == value + error;
  }

  lemma SplitProduct(units: real, raw: real, d: real, entry: real)
    requires units == raw + d
    ensures units * entry == raw * entry + d * entry
  {
  }

  lemma QuotientTimes(value: real, entry: real)
    requires entry > 0.0
    ensures value / entry * entry == value
  {
  }

  lemma RoundedIsNear(units: real)
    ensures -0.000005 <= Rounded(units) - units <= 0.000005
  {
    hide RoundHalfEven;
  }

  lemma RiskIsAtMostTwice(balance: real, riskPct: real)
    requires balance >= 0.0 && riskPct <= 0.02
    ensures balance * riskPct / 0.01 <= 2.0 * balance
  {
  }

  lemma ScaleBounds(d: real, entry: real)
    requires -0.000005 <= d <= 0.000005 && entry > 0.0
    ensures -0.000005 * entry <= d * entry <= 0.000005 * entry
  {
  }
}
