/** What the backtest reports about the candles before k depends on nothing later. */
module NoLookAhead {
  import opened Common
  import opened Backtest

  /** Same configuration, and the same candles and signals before candle k, with which neither ends. */
  predicate SameBefore(a: Setup, b: Setup, k: nat) {
    a.config == b.config && k < |a.candles| && k < |b.candles|
    && forall i :: 0 <= i < k ==> a.candles[i] == b.candles[i] && a.signals(i) == b.signals(i)
  }

  lemma {:induction false} SameSums(a: Setup, b: Setup, k: nat, from: nat, end: nat)
    requires SameBefore(a, b, k) && 1 <= from && end <= k
    ensures SumTrueRange(a.candles, from, end) == SumTrueRange(b.candles, from, end)
    decreases end
  {
    if from < end {
      SameSums(a, b, k, from, end - 1);
    }
  }

  lemma SameEntry(a: Setup, b: Setup, k: nat, e: nat, balance: real)
    requires SameBefore(a, b, k) && e < k
    ensures IsEntry(a, e) <==> IsEntry(b, e)
    ensures IsEntry(a, e) ==> Opened(a, e, balance) == Opened(b, e, balance)
  {
    hide SumTrueRange;
    hide Units;
    hide StopPrice;
    SameSums(a, b, k, Max(0, e - ATR_PERIOD) + 1, e + 1);
  }

  lemma SameExits(a: Setup, b: Setup, k: nat, p: Position, x: nat)
    requires SameBefore(a, b, k) && x < k
    ensures Exits(a, p, x) <==> Exits(b, p, x)
    ensures ExitReason(a, p, x) == ExitReason(b, p, x)
  {
  }

  lemma SameClose(a: Setup, b: Setup, k: nat, t: Trade, u: Trade, balance: real, last: bool)
    requires SameBefore(a, b, k) && t.exitAt < k && u.position == t.position
    requires WellTraded(a, t, balance, last) && WellTraded(b, u, balance, last)
    ensures u == t
  {
    hide IsEntry;
    hide Opened;
    hide Exits;
    hide ExitReason;
    hide Cents;
    var p := t.position;
    SameExits(a, b, k, p, t.exitAt);
    if u.exitAt < t.exitAt {
      SameExits(a, b, k, p, u.exitAt);
    }
  }

  /** A trade closed before candle k is the first one of the other list as well. */
  lemma FirstCloseAgrees(a: Setup, b: Setup, k: nat, ta: seq<Trade>, tb: seq<Trade>, from: nat, balance: real,
                         count: nat)
    requires SameBefore(a, b, k) && WellKept(a, ta, from, balance, count) && WellKept(b, tb, from, balance, count)
    requires ta != [] && ta[0].exitAt < k
    ensures tb != [] && tb[0] == ta[0]
  {
    hide IsEntry;
    hide Opened;
    hide Exits;
    hide ExitReason;
    hide Cents;
    var t := ta[0];
    var e := t.position.entryAt;
    SameEntry(a, b, k, e, balance);
    assert !NoEntryBetween(b, from, |b.candles|);
    var u := tb[0];
    assert u.position.entryAt <= e;
    SameEntry(a, b, k, u.position.entryAt, balance);
    assert u.position == t.position;
    SameClose(a, b, k, t, u, balance, IsLast(a.config, count + 1));
  }

  /** The trades closed before candle k. */
  function ClosedBefore(trades: seq<Trade>, k: nat): seq<Trade> {
    if trades == [] then [] else ClosedBefore(Init(trades), k) + if Last(trades).exitAt < k then [Last(trades)] else []
  }

  lemma {:induction false} ClosedBeforeFirst(trades: seq<Trade>, k: nat)
    requires trades != []
    ensures ClosedBefore(trades, k) == (if trades[0].exitAt < k then [trades[0]] else []) + ClosedBefore(trades[1..], k)
  {
    if |trades| == 1 {
      assert Init(trades) == [] && trades[1..] == [];
    } else {
      ClosedBeforeFirst(Init(trades), k);
      assert Init(trades)[1..] == Init(trades[1..]);
    }
  }

  lemma {:induction false} NoneClosedBefore(trades: seq<Trade>, k: nat)
    requires forall j :: 0 <= j < |trades| ==> trades[j].exitAt >= k
    ensures ClosedBefore(trades, k) == []
  {
    if trades != [] {
      NoneClosedBefore(Init(trades), k);
    }
  }

  lemma {:induction false} PnlOfClosedBefore(trades: seq<Trade>, k: nat)
    ensures PnlBefore(trades, k) == TotalPnl(ClosedBefore(trades, k))
  {
    if trades != [] {
      PnlOfClosedBefore(Init(trades), k);
      var closed := ClosedBefore(Init(trades), k);
      assert Init(closed + [Last(trades)]) == closed;
      assert closed + [] == closed;
    }
  }

  lemma NothingClosesEarlier(s: Setup, trades: seq<Trade>, from: nat, balance: real, count: nat, k: nat)
    requires WellKept(s, trades, from, balance, count) && (trades != [] ==> trades[0].exitAt >= k)
    ensures ClosedBefore(trades, k) == []
  {
    hide WellKept;
    PositionsNeverOverlap(s, trades, from, balance, count);
    NoneClosedBefore(trades, k);
  }

  lemma {:induction false} ListsAgree(a: Setup, b: Setup, k: nat, ta: seq<Trade>, tb: seq<Trade>, from: nat,
                                      balance: real, count: nat)
    requires SameBefore(a, b, k) && WellKept(a, ta, from, balance, count) && WellKept(b, tb, from, balance, count)
    ensures ClosedBefore(ta, k) == ClosedBefore(tb, k)
    ensures IsLast(a.config, count + |ta|) && AllClosedBefore(ta, k) ==> tb == ta
  {
    hide WellTraded;
    hide IsEntry;
    hide ClosedBefore;
    if ta != [] && ta[0].exitAt < k {
      FirstCloseAgrees(a, b, k, ta, tb, from, balance, count);
      ClosedBeforeFirst(ta, k);
      ClosedBeforeFirst(tb, k);
      ListsAgree(a, b, k, ta[1..], tb[1..], ta[0].exitAt + 1, balance + ta[0].pnl, count + 1);
      assert ta == [ta[0]] + ta[1..] && tb == [tb[0]] + tb[1..];
    } else {
      if tb != [] && tb[0].exitAt < k {
        FirstCloseAgrees(b, a, k, tb, ta, from, balance, count);
      }
      NothingClosesEarlier(a, ta, from, balance, count, k);
      NothingClosesEarlier(b, tb, from, balance, count, k);
    }
  }

  lemma SameEarlier(a: Setup, b: Setup, k: nat, i: nat)
    requires SameBefore(a, b, k) && i <= k
    ensures SameBefore(a, b, i)
  {
  }

  /** A curve that ends by candle k ends with the last trade allowed, and so does the other one. */
  lemma CurveEndsWithTheOther(a: Setup, b: Setup, k: nat, ra: Report, rb: Report)
    requires SameBefore(a, b, k) && IsReport(a, ra.trades, ra.equity) && IsReport(b, rb.trades, rb.equity)
    ensures |ra.equity| <= k ==> |rb.equity| == |ra.equity|
  {
    hide WellKept;
    if |ra.equity| <= k {
      PositionsNeverOverlap(a, ra.trades, 0, a.config.initialBalance, 0);
      ListsAgree(a, b, k, ra.trades, rb.trades, 0, a.config.initialBalance, 0);
    }
  }

  /** Two runs over the same candles and signals before candle k report the same trades closed before it and the
      same equity curve up to it, whatever comes later. */
  lemma ReportsAgreeBefore(a: Setup, b: Setup, k: nat, ra: Report, rb: Report)
    requires SameBefore(a, b, k) && IsReport(a, ra.trades, ra.equity) && IsReport(b, rb.trades, rb.equity)
    ensures ClosedBefore(ra.trades, k) == ClosedBefore(rb.trades, k)
    ensures ra.equity[..Min(|ra.equity|, k + 1)] == rb.equity[..Min(|rb.equity|, k + 1)]
  {
    hide WellKept;
    hide ClosedBefore;
    var initial := a.config.initialBalance;
    ListsAgree(a, b, k, ra.trades, rb.trades, 0, initial, 0);
    CurveEndsWithTheOther(a, b, k, ra, rb);
    CurveEndsWithTheOther(b, a, k, rb, ra);
    forall i: nat | i <= k && i < |ra.equity| && i < |rb.equity|
      ensures ra.equity[i] == rb.equity[i]
    {
      SameEarlier(a, b, k, i);
      ListsAgree(a, b, i, ra.trades, rb.trades, 0, initial, 0);
      PnlOfClosedBefore(ra.trades, i);
      PnlOfClosedBefore(rb.trades, i);
    }
  }
}
