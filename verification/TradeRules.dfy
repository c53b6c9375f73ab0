/** Every trade of a backtest on the candles' and signals' own fields: why it was entered, when its stop was touched,
    why it ended and what it made. */
module TradeRules {
  import opened Common
  import opened Backtest

  // ---------- Candles and signals ----------

  /** The candle's range reaches the stop: its low that of a purchase, its high that of a sale. */
  predicate TouchesStop(c: Candle, side: Side, stop: real) {
    (side == Buy ==> c.low <= stop) && (side != Buy ==> c.high >= stop)
  }

  /** The strategy asks for this side with at least half confidence. */
  predicate AsksFor(signal: Option<Signal>, side: Side) {
    signal.Some? && signal.value.side == side && signal.value.confidence >= 0.5
  }

  function OtherSide(side: Side): Side {
    if side == Buy then Sell else Buy
  }

  /** What ends a position at a candle. */
  predicate EndsAt(s: Setup, p: Position, i: nat)
    requires i < |s.candles|
  {
    TouchesStop(s.candles[i], p.side, p.slPrice) || AsksFor(s.signals(i), OtherSide(p.side))
  }

  lemma ExitsOnFields(s: Setup, p: Position, i: nat)
    requires i < |s.candles| && p.side != Neutral
    ensures Exits(s, p, i) <==> EndsAt(s, p, i)
    ensures ExitReason(s, p, i) == if TouchesStop(s.candles[i], p.side, p.slPrice) then StopLoss else ExitSignal
  {
  }

  lemma EntryOnFields(s: Setup, i: nat)
    requires i < |s.candles|
    ensures IsEntry(s, i) <==> s.candles[i].close > 0.0 && (AsksFor(s.signals(i), Buy) || AsksFor(s.signals(i), Sell))
  {
  }

  // ---------- True range and stop distance ----------

  /** The true range is the width of the prices seen since the previous close. */
  lemma TrueRangeIsWidth(c: Candle, previousClose: real)
    requires c.low <= c.high
    ensures TrueRange(c, previousClose) == Larger(c.high, previousClose) - Smaller(c.low, previousClose)
  {
  }

  /** True range of candle j. */
  function RangeAt(candles: seq<Candle>, j: nat): real
    requires 0 < j < |candles|
  {
    TrueRange(candles[j], candles[j - 1].close)
  }

  lemma {:induction false} FirstRangeApart(candles: seq<Candle>, from: nat, end: nat)
    requires 1 <= from < end <= |candles|
    ensures SumTrueRange(candles, from, end) == RangeAt(candles, from) + SumTrueRange(candles, from + 1, end)
    decreases end
  {
    hide TrueRange;
    if from + 1 < end {
      FirstRangeApart(candles, from, end - 1);
    } else {
      assert SumTrueRange(candles, from, from) == 0.0 && SumTrueRange(candles, from + 1, end) == 0.0;
    }
  }

  lemma LastRangeApart(candles: seq<Candle>, from: nat, i: nat)
    requires 1 <= from <= i < |candles|
    ensures SumTrueRange(candles, from, i + 1) == SumTrueRange(candles, from, i) + RangeAt(candles, i)
  {
    hide TrueRange;
  }

  lemma TwoRanges(candles: seq<Candle>)
    requires |candles| > 2
    ensures SumTrueRange(candles, 1, 3) == RangeAt(candles, 1) + RangeAt(candles, 2)
  {
    hide TrueRange;
    LastRangeApart(candles, 1, 2);
    LastRangeApart(candles, 1, 1);
    assert SumTrueRange(candles, 1, 1) == 0.0;
  }

  /** The average times the number of ranges it is taken over. */
  function RangesInMean(candles: seq<Candle>, i: nat): real
    requires i < |candles|
  {
    Prod(AverageTrueRange(candles, i), Min(i, 14) as real)
  }

  lemma MeanTimesCount(sum: real, n: real)
    requires n > 0.0
    ensures Prod(sum / n, n) == sum
  {
  }

  lemma RangesInMeanAre(candles: seq<Candle>, i: nat)
    requires 2 <= i < |candles|
    ensures RangesInMean(candles, i) == SumTrueRange(candles, i - Min(i, 14) + 1, i + 1)
  {
    hide SumTrueRange;
    hide Prod;
    var n := Min(i, 14);
    MeanTimesCount(SumTrueRange(candles, i - n + 1, i + 1), n as real);
  }

  /** The average is zero before the second range, then the mean of all the ranges so far, and from the fourteenth on
      that of the last fourteen: each new range comes in, and the one fourteen candles back goes out. */
  lemma AtrSlides(candles: seq<Candle>, i: nat)
    requires i < |candles|
    ensures i < 2 ==> AverageTrueRange(candles, i) == 0.0
    ensures i == 2 ==> RangesInMean(candles, 2) == RangeAt(candles, 1) + RangeAt(candles, 2)
    ensures 2 < i <= 14 ==> RangesInMean(candles, i) == RangesInMean(candles, i - 1) + RangeAt(candles, i)
    ensures i > 14 ==>
      RangesInMean(candles, i) == RangesInMean(candles, i - 1) + RangeAt(candles, i) - RangeAt(candles, i - 14)
  {
    if i >= 2 {
      hide TrueRange;
      hide AverageTrueRange;
      hide RangesInMean;
      RangesInMeanAre(candles, i);
      if i == 2 {
        TwoRanges(candles);
      } else {
        hide SumTrueRange;
        RangesInMeanAre(candles, i - 1);
        LastRangeApart(candles, i - Min(i, 14) + 1, i);
        if i > 14 {
          FirstRangeApart(candles, i - 14, i);
        }
      }
    }
  }

  /** The stop lies one and a half ATRs from entry, or half a percent of it, whichever is further; where that is no
      price, five percent below. */
  predicate StopIsAtDistance(side: Side, entry: real, atr: real, stop: real) {
    var away := if side == Buy then entry - stop else stop - entry;
    if side == Buy && (1.5 * atr >= entry || 0.005 * entry >= entry) then stop == 0.95 * entry
    else away >= 1.5 * atr && away >= 0.005 * entry && (away == 1.5 * atr || away == 0.005 * entry)
  }

  lemma StopPriceIsAtDistance(side: Side, entry: real, atr: real)
    requires entry > 0.0
    ensures StopIsAtDistance(side, entry, atr, StopPrice(side, entry, StopDistance(atr, entry)))
  {
  }

  // ---------- One trade ----------

  /** How the position was opened: on a signal for its side, at the close, with its stop where it belongs. */
  predicate IsOpening(s: Setup, p: Position, balance: real) {
    p.entryAt < |s.candles| && (p.side == Buy || p.side == Sell) && AsksFor(s.signals(p.entryAt), p.side)
    && p.entryPrice == s.candles[p.entryAt].close && p.entryPrice > 0.0 && p.units > 0.0
    && StopIsAtDistance(p.side, p.entryPrice, AverageTrueRange(s.candles, p.entryAt), p.slPrice)
    && -0.000005 <= p.units - UnitsWorth(balance, s.config.riskPct, p.entryPrice) <= 0.000005
  }

  /** Units worth the risk share of the balance a hundred times over. */
  function UnitsWorth(balance: real, riskPct: real, entry: real): real
    requires entry > 0.0
  {
    balance * riskPct / 0.01 / entry
  }

  /** Held over every candle in between; ended by the stop exactly when the exit candle comes later and touches it, by
      a signal exactly when it comes later, does not, and the strategy asks for the other side. */
  predicate IsEnding(s: Setup, t: Trade) {
    var p := t.position;
    p.entryAt <= t.exitAt < |s.candles|
    && (forall j :: p.entryAt < j < t.exitAt ==> !EndsAt(s, p, j))
    && (t.reason == StopLoss <==> p.entryAt < t.exitAt && TouchesStop(s.candles[t.exitAt], p.side, p.slPrice))
    && (t.reason == ExitSignal <==>
          p.entryAt < t.exitAt && !TouchesStop(s.candles[t.exitAt], p.side, p.slPrice)
          && AsksFor(s.signals(t.exitAt), OtherSide(p.side)))
    && (t.reason == EndOfData ==> t.exitAt == |s.candles| - 1)
  }

  /** Closed at the close, for what the price has moved times the units, to the cent. */
  predicate IsSettled(s: Setup, t: Trade)
    requires t.exitAt < |s.candles|
  {
    var p := t.position;
    t.exitPrice == s.candles[t.exitAt].close && t.exitPrice > 0.0
    && -0.005 <= t.pnl - Profit(p.side, p.entryPrice, t.exitPrice, p.units) <= 0.005
  }

  function Profit(side: Side, entry: real, exit: real, units: real): real {
    if side == Buy then (exit - entry) * units else (entry - exit) * units
  }

  lemma PnlIsProfit(p: Position, exit: real)
    ensures -0.005 <= Cents(Pnl(p, exit)) - Profit(p.side, p.entryPrice, exit, p.units) <= 0.005
  {
    CentsAreNear(Pnl(p, exit));
    if p.side == Buy {
      assert Move(p, exit) == exit - p.entryPrice;
    } else {
      assert Move(p, exit) == p.entryPrice - exit;
    }
    hide Cents;
  }

  lemma UnitsAreNear(balance: real, riskPct: real, entry: real)
    requires entry > 0.0
    ensures -0.000005 <= Units(balance, riskPct, entry) - UnitsWorth(balance, riskPct, entry) <= 0.000005
  {
    RoundedIsNear(RawUnits(balance, riskPct, entry));
    hide Rounded;
  }

  lemma OpeningOnFields(s: Setup, i: nat, balance: real)
    requires IsEntry(s, i) && Opened(s, i, balance).units > 0.0
    ensures IsOpening(s, Opened(s, i, balance), balance)
  {
    hide AverageTrueRange;
    StopPriceIsAtDistance(s.signals(i).value.side, s.candles[i].close, AverageTrueRange(s.candles, i));
    UnitsAreNear(balance, s.config.riskPct, s.candles[i].close);
    hide StopPrice;
    hide Units;
    hide StopIsAtDistance;
    hide UnitsWorth;
    var p := Opened(s, i, balance);
    assert p.entryAt == i && p.side == s.signals(i).value.side && p.entryPrice == s.candles[i].close;
    assert (p.side == Buy || p.side == Sell) && AsksFor(s.signals(i), p.side);
    assert StopIsAtDistance(p.side, p.entryPrice, AverageTrueRange(s.candles, i), p.slPrice);
    assert p.units == Units(balance, s.config.riskPct, p.entryPrice);
  }

  lemma EndingOnFields(s: Setup, t: Trade, balance: real, last: bool)
    requires WellTraded(s, t, balance, last)
    ensures IsEnding(s, t) && (t.reason == MaxTradesReached <==> last)
  {
    hide Cents;
    hide Pnl;
    var p := t.position;
    assert p.side != Neutral;
    hide Opened;
    hide IsEntry;
    ExitsOnFields(s, p, t.exitAt);
    forall j | p.entryAt < j < t.exitAt
      ensures !EndsAt(s, p, j)
    {
      ExitsOnFields(s, p, j);
    }
    hide Exits;
    hide ExitReason;
    hide TouchesStop;
  }

  lemma TradeOnFields(s: Setup, t: Trade, balance: real, last: bool)
    requires WellTraded(s, t, balance, last)
    ensures IsOpening(s, t.position, balance) && IsEnding(s, t) && IsSettled(s, t)
    ensures t.reason == MaxTradesReached <==> last
  {
    var p := t.position;
    OpeningOnFields(s, p.entryAt, balance);
    EndingOnFields(s, t, balance, last);
    PnlIsProfit(p, t.exitPrice);
    hide IsOpening;
    hide IsEnding;
    hide Opened;
    hide IsEntry;
    hide Cents;
    hide Pnl;
    hide Profit;
  }

  /** Every trade of a well-kept list, on the fields of its candles and signals. */
  lemma {:induction false} TradesOnFields(s: Setup, trades: seq<Trade>, from: nat, balance: real, count: nat, k: nat)
    requires WellKept(s, trades, from, balance, count) && k < |trades|
    ensures IsOpening(s, trades[k].position, balance + TotalPnl(trades[..k]))
    ensures IsEnding(s, trades[k]) && IsSettled(s, trades[k])
    ensures trades[k].reason == MaxTradesReached <==> IsLast(s.config, count + k + 1)
  {
    hide WellTraded;
    hide IsOpening;
    hide IsEnding;
    hide IsSettled;
    if k == 0 {
      TradeOnFields(s, trades[0], balance, IsLast(s.config, count + 1));
      assert trades[..0] == [] && balance + TotalPnl([]) == balance;
    } else {
      TradesOnFields(s, trades[1..], trades[0].exitAt + 1, balance + trades[0].pnl, count + 1, k - 1);
      TotalFromFirst(trades[..k]);
      assert trades[..k][1..] == trades[1..][..k - 1];
      hide WellKept;
    }
  }

  lemma {:induction false} TotalFromFirst(trades: seq<Trade>)
    requires trades != []
    ensures TotalPnl(trades) == trades[0].pnl + TotalPnl(trades[1..])
  {
    if |trades| == 1 {
      assert Init(trades) == [] && trades[1..] == [];
    } else {
      TotalFromFirst(Init(trades));
      assert Init(trades)[1..] == Init(trades[1..]);
    }
  }

  /** No trade is missed: before, between and after the trades no candle with a price carries a signal for either side,
      until the last trade allowed. */
  lemma {:induction false} NoSignalIsMissed(s: Setup, trades: seq<Trade>, from: nat, balance: real, count: nat, i: nat)
    requires WellKept(s, trades, from, balance, count) && from <= i < |s.candles| && s.candles[i].close > 0.0
    requires AsksFor(s.signals(i), Buy) || AsksFor(s.signals(i), Sell)
    requires forall k :: 0 <= k < |trades| ==> !(trades[k].position.entryAt <= i <= trades[k].exitAt)
    ensures IsLast(s.config, count + |trades|)
    ensures forall k :: 0 <= k < |trades| ==> trades[k].exitAt < i
  {
    EntryOnFields(s, i);
    if trades != [] {
      var t := trades[0];
      hide IsEntry;
      hide WellTraded;
      assert t.position.entryAt <= i;
      assert forall k :: 0 <= k < |trades[1..]| ==> trades[1..][k] == trades[k + 1];
      NoSignalIsMissed(s, trades[1..], t.exitAt + 1, balance + t.pnl, count + 1, i);
      assert forall k :: 0 < k < |trades| ==> trades[k] == trades[1..][k - 1];
    }
  }
}
