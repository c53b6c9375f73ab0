/** Streaming equals batch: what the builder stores and publishes is the OHLCV summary of the ticks, by window. */
module CandleBatch {
  import opened Common
  import opened MarketData
  import opened CandleBuilder

  // ---------- Batch definitions ----------

  function SumQuantity(g: seq<Tick>): int {
    if g == [] then 0 else SumQuantity(Init(g)) + Last(g).quantity
  }

  /** g[i] is the first tick of g with the largest minor amount, and p its price. */
  ghost predicate HighAt(g: seq<Tick>, i: int, p: Price) {
    0 <= i < |g| && g[i].price == p
    && (forall j :: 0 <= j < i ==> g[j].price.minor < p.minor)
    && (forall j :: 0 <= j < |g| ==> g[j].price.minor <= p.minor)
  }

  ghost predicate LowAt(g: seq<Tick>, i: int, p: Price) {
    0 <= i < |g| && g[i].price == p
    && (forall j :: 0 <= j < i ==> p.minor < g[j].price.minor)
    && (forall j :: 0 <= j < |g| ==> p.minor <= g[j].price.minor)
  }

  ghost predicate IsHigh(p: Price, g: seq<Tick>) {
    exists i :: HighAt(g, i, p)
  }

  ghost predicate IsLow(p: Price, g: seq<Tick>) {
    exists i :: LowAt(g, i, p)
  }

  /** c is the OHLCV summary of the ticks g over the window of `tf` that starts at `start`. */
  ghost predicate Summarises(c: Candle, g: seq<Tick>, symbol: string, tf: Timeframe, start: nat) {
    g != []
    && c.symbol == symbol && c.timeframe == tf
    && c.openTs == start && c.closeTs == start + tf.ToMilliseconds()
    && c.open == g[0].price && c.close == Last(g).price
    && IsHigh(c.high, g) && IsLow(c.low, g)
    && c.volume == Volume(SumQuantity(g), 8)
  }

  function Latest(ticks: seq<Tick>): nat
    requires ticks != []
  {
    if |ticks| == 1 then ticks[0].ts else Max(Latest(Init(ticks)), Last(ticks).ts)
  }

  /** The ticks charged to the window starting at `start`: a tick belongs to the window of the
      latest timestamp seen so far, so a late tick joins the window then current. */
  function Group(ticks: seq<Tick>, tf: Timeframe, start: nat): seq<Tick> {
    if ticks == [] then []
    else Group(Init(ticks), tf, start) + if Align(Latest(ticks), tf) == start then [Last(ticks)] else []
  }

  /** The ticks whose own timestamp falls in the window starting at `start`. */
  function InWindow(ticks: seq<Tick>, tf: Timeframe, start: nat): seq<Tick> {
    if ticks == [] then []
    else InWindow(Init(ticks), tf, start) + if Align(Last(ticks).ts, tf) == start then [Last(ticks)] else []
  }

  predicate OneSymbol(ticks: seq<Tick>, symbol: string) {
    forall t :: t in ticks ==> t.symbol == symbol
  }

  predicate Nondecreasing(ticks: seq<Tick>) {
    forall i, j :: 0 <= i < j < |ticks| ==> ticks[i].ts <= ticks[j].ts
  }

  /** tr holds exactly the batch candles of the ticks: one per nonempty window, in window order,
      complete except the last, and `previous` is the candle published last. */
  ghost predicate IsBatch(tr: Track, ticks: seq<Tick>, symbol: string, tf: Timeframe)
    requires ticks != []
  {
    tr.state.Some?
    && CurrentRight(tr.state.value.current, ticks, symbol, tf)
    && (forall k :: 0 <= k < |tr.published| ==> PublishedRight(tr.published[k], ticks, symbol, tf))
    && InWindowOrder(tr.published, tr.state.value.current.openTs)
    && (forall w: nat :: Group(ticks, tf, w) != [] ==> w == tr.state.value.current.openTs || HasWindow(tr.published, w))
    && tr.state.value.previous == (if tr.published == [] then None else Some(Last(tr.published)))
  }

  ghost predicate CurrentRight(c: Candle, ticks: seq<Tick>, symbol: string, tf: Timeframe)
    requires ticks != []
  {
    c.openTs == Align(Latest(ticks), tf) && !c.isComplete
    && Summarises(c, Group(ticks, tf, c.openTs), symbol, tf, c.openTs)
  }

  ghost predicate PublishedRight(c: Candle, ticks: seq<Tick>, symbol: string, tf: Timeframe) {
    c.isComplete && Summarises(c, Group(ticks, tf, c.openTs), symbol, tf, c.openTs)
  }

  /** Published windows strictly increase and all precede the current one. */
  ghost predicate InWindowOrder(published: seq<Candle>, currentTs: nat) {
    (forall k :: 0 <= k < |published| ==> published[k].openTs < currentTs)
    && (forall i, k :: 0 <= i < k < |published| ==> published[i].openTs < published[k].openTs)
  }

  ghost predicate HasWindow(published: seq<Candle>, w: nat) {
    exists k :: 0 <= k < |published| && published[k].openTs == w
  }

  // ---------- Properties of summaries ----------

  lemma FirstTickSummary(t: Tick, tf: Timeframe)
    ensures Summarises(Candle.FromTick(t, tf), [t], t.symbol, tf, Align(t.ts, tf))
  {
    assert HighAt([t], 0, t.price) && LowAt([t], 0, t.price);
    assert Init([t]) == [];
  }

  lemma NextTickSummary(c: Candle, g: seq<Tick>, t: Tick, symbol: string, tf: Timeframe, start: nat)
    requires Summarises(c, g, symbol, tf, start)
    ensures Summarises(c.WithTick(t), g + [t], symbol, tf, start)
  {
    var g' := g + [t];
    assert Init(g') == g && Last(g') == t;
    HighExtends(g, t, c.high);
    LowExtends(g, t, c.low);
  }

  lemma HighExtends(g: seq<Tick>, t: Tick, p: Price)
    requires IsHigh(p, g)
    ensures IsHigh(if t.price.minor > p.minor then t.price else p, g + [t])
  {
    var i :| HighAt(g, i, p);
    if t.price.minor > p.minor {
      assert HighAt(g + [t], |g|, t.price);
    } else {
      assert HighAt(g + [t], i, p);
    }
  }

  lemma LowExtends(g: seq<Tick>, t: Tick, p: Price)
    requires IsLow(p, g)
    ensures IsLow(if t.price.minor < p.minor then t.price else p, g + [t])
  {
    var i :| LowAt(g, i, p);
    if t.price.minor < p.minor {
      assert LowAt(g + [t], |g|, t.price);
    } else {
      assert LowAt(g + [t], i, p);
    }
  }

  /** A window's summary is unique: group, window and completeness determine the whole candle. */
  lemma SummaryIsUnique(c: Candle, d: Candle, g: seq<Tick>, symbol: string, tf: Timeframe, start: nat)
    requires Summarises(c, g, symbol, tf, start) && Summarises(d, g, symbol, tf, start)
    requires c.isComplete == d.isComplete
    ensures c == d
  {
    var i :| HighAt(g, i, c.high);
    var j :| HighAt(g, j, d.high);
    assert i == j;
    var k :| LowAt(g, k, c.low);
    var l :| LowAt(g, l, d.low);
    assert k == l;
  }

  lemma SummaryIsWellFormed(c: Candle, g: seq<Tick>, symbol: string, tf: Timeframe, start: nat)
    requires Summarises(c, g, symbol, tf, start)
    ensures c.low.minor <= c.open.minor <= c.high.minor
    ensures c.low.minor <= c.close.minor <= c.high.minor
  {
  }

  // ---------- Windows of late and timely ticks ----------

  lemma StaysInWindow(latest: nat, ts: nat, tf: Timeframe)
    requires Align(ts, tf) < Align(latest, tf) + tf.ToMilliseconds()
    ensures Align(Max(latest, ts), tf) == Align(latest, tf)
  {
    var m := tf.ToMilliseconds();
    var close := Align(latest, tf) + m;
    if close <= ts {
      assert close == (latest / m + 1) * m;
      AlignIsUnique(close, latest / m + 1, tf);
      AlignIsMonotone(close, ts, tf);
    }
    AlignIsUnique(Max(latest, ts), latest / m, tf);
  }

  // ---------- Streaming refines batch ----------

  /** For ticks of one symbol in any order, late ones included. */
  lemma {:induction false} TrackIsBatch(ticks: seq<Tick>, symbol: string, tf: Timeframe)
    requires ticks != [] && OneSymbol(ticks, symbol)
    ensures IsBatch(TrackOf(ticks, tf), ticks, symbol, tf)
  {
    var t := Last(ticks);
    FirstTickSummary(t, tf);
    if |ticks| == 1 {
      assert Init(ticks) == [] && ticks == [t];
      assert forall w: nat :: Group(ticks, tf, w) == if Align(t.ts, tf) == w then [t] else [];
    } else {
      TrackIsBatch(Init(ticks), symbol, tf);
      if Align(t.ts, tf) >= TrackOf(Init(ticks), tf).state.value.current.closeTs {
        RolloverStep(ticks, symbol, tf);
      } else {
        SameWindowStep(ticks, symbol, tf);
      }
    }
  }

  lemma OtherWindowsKeepTheirTicks(ticks: seq<Tick>, tf: Timeframe, published: seq<Candle>, symbol: string)
    requires |ticks| > 1
    requires forall k :: 0 <= k < |published| ==> PublishedRight(published[k], Init(ticks), symbol, tf)
    requires forall k :: 0 <= k < |published| ==> published[k].openTs != Align(Latest(ticks), tf)
    ensures forall k :: 0 <= k < |published| ==> PublishedRight(published[k], ticks, symbol, tf)
    ensures forall w: nat :: w != Align(Latest(ticks), tf) ==> Group(ticks, tf, w) == Group(Init(ticks), tf, w)
  {
    forall k | 0 <= k < |published|
      ensures PublishedRight(published[k], ticks, symbol, tf)
    {
      assert Group(ticks, tf, published[k].openTs) == Group(Init(ticks), tf, published[k].openTs);
    }
  }

  lemma SameWindowStep(ticks: seq<Tick>, symbol: string, tf: Timeframe)
    requires |ticks| > 1 && OneSymbol(ticks, symbol)
    requires IsBatch(TrackOf(Init(ticks), tf), Init(ticks), symbol, tf)
    requires Align(Last(ticks).ts, tf) < TrackOf(Init(ticks), tf).state.value.current.closeTs
    ensures IsBatch(TrackOf(ticks, tf), ticks, symbol, tf)
  {
    var t, before, after := Last(ticks), TrackOf(Init(ticks), tf), TrackOf(ticks, tf);
    var c := before.state.value.current;
    StaysInWindow(Latest(Init(ticks)), t.ts, tf);
    NextTickSummary(c, Group(Init(ticks), tf, c.openTs), t, symbol, tf, c.openTs);
    assert after == Track(Some(CandleState(c.WithTick(t), before.state.value.previous)), before.published);
    OtherWindowsKeepTheirTicks(ticks, tf, before.published, symbol);
  }

  lemma RolloverStep(ticks: seq<Tick>, symbol: string, tf: Timeframe)
    requires |ticks| > 1 && OneSymbol(ticks, symbol)
    requires IsBatch(TrackOf(Init(ticks), tf), Init(ticks), symbol, tf)
    requires Align(Last(ticks).ts, tf) >= TrackOf(Init(ticks), tf).state.value.current.closeTs
    ensures IsBatch(TrackOf(ticks, tf), ticks, symbol, tf)
  {
    var t, before := Last(ticks), TrackOf(Init(ticks), tf);
    var c := before.state.value.current;
    var after := Track(Some(CandleState(Candle.FromTick(t, tf), Some(c.MarkComplete()))),
                       before.published + [c.MarkComplete()]);
    assert TrackOf(ticks, tf) == after;
    RolledOverIsBatch(ticks, before, after, symbol, tf);
  }

  lemma RolledOverIsBatch(ticks: seq<Tick>, before: Track, after: Track, symbol: string, tf: Timeframe)
    requires |ticks| > 1 && Last(ticks).symbol == symbol
    requires IsBatch(before, Init(ticks), symbol, tf)
    requires Align(Last(ticks).ts, tf) >= before.state.value.current.closeTs
    requires after.published == before.published + [before.state.value.current.MarkComplete()]
    requires after.state == Some(CandleState(Candle.FromTick(Last(ticks), tf), Some(Last(after.published))))
    ensures IsBatch(after, ticks, symbol, tf)
  {
    var t, c := Last(ticks), before.state.value.current;
    RolloverTimes(ticks, c.openTs, tf);
    hide Latest;
    hide Candle.FromTick;
    hide PublishedRight;
    hide Group;
    hide HasWindow;
    CompletedIsRight(c, Init(ticks), symbol, tf);
    OrderExtends(before.published, c.MarkComplete(), Align(t.ts, tf));
    OtherWindowsKeepTheirTicks(ticks, tf, after.published, symbol);
    NewWindowIsUntouched(ticks, before.published, c.openTs, Align(t.ts, tf), tf);
    NewWindowIsRight(ticks, t, symbol, tf);
    hide CurrentRight;
    hide InWindowOrder;
    WindowsStayCovered(before.published, c.MarkComplete());
    StillCovered(ticks, before.published, after.published, c.openTs, Align(t.ts, tf), tf);
  }

  lemma OrderExtends(published: seq<Candle>, c: Candle, next: nat)
    requires InWindowOrder(published, c.openTs) && c.openTs < next
    ensures InWindowOrder(published + [c], next)
    ensures forall k :: 0 <= k < |published + [c]| ==> (published + [c])[k].openTs != next
  {
  }

  lemma NewWindowIsUntouched(ticks: seq<Tick>, published: seq<Candle>, openTs: nat, next: nat, tf: Timeframe)
    requires |ticks| > 1 && InWindowOrder(published, openTs) && openTs < next
    requires forall w: nat :: Group(Init(ticks), tf, w) != [] ==> w == openTs || HasWindow(published, w)
    ensures Group(Init(ticks), tf, next) == []
  {
    hide Group;
  }

  lemma StillCovered(ticks: seq<Tick>, published: seq<Candle>, more: seq<Candle>, openTs: nat, next: nat, tf: Timeframe)
    requires |ticks| > 1
    requires forall w: nat :: Group(Init(ticks), tf, w) != [] ==> w == openTs || HasWindow(published, w)
    requires forall w: nat :: w != next ==> Group(ticks, tf, w) == Group(Init(ticks), tf, w)
    requires HasWindow(more, openTs) && forall v: nat :: HasWindow(published, v) ==> HasWindow(more, v)
    ensures forall w: nat :: Group(ticks, tf, w) != [] ==> w == next || HasWindow(more, w)
  {
    hide Group;
    hide HasWindow;
  }

  lemma RolloverTimes(ticks: seq<Tick>, openTs: nat, tf: Timeframe)
    requires |ticks| > 1 && openTs == Align(Latest(Init(ticks)), tf)
      && Align(Last(ticks).ts, tf) >= openTs + tf.ToMilliseconds()
    ensures Latest(ticks) == Last(ticks).ts && Align(Last(ticks).ts, tf) > openTs
  {
    AlignIsMonotone(Min(Last(ticks).ts, Latest(Init(ticks))), Latest(Init(ticks)), tf);
  }

  lemma CompletedIsRight(c: Candle, ticks: seq<Tick>, symbol: string, tf: Timeframe)
    requires ticks != [] && CurrentRight(c, ticks, symbol, tf)
    ensures PublishedRight(c.MarkComplete(), ticks, symbol, tf)
  {
  }

  lemma NewWindowIsRight(ticks: seq<Tick>, t: Tick, symbol: string, tf: Timeframe)
    requires |ticks| > 1 && Last(ticks) == t && t.symbol == symbol && Latest(ticks) == t.ts
    requires Group(Init(ticks), tf, Align(t.ts, tf)) == []
    ensures CurrentRight(Candle.FromTick(t, tf), ticks, symbol, tf)
  {
    assert Group(ticks, tf, Align(t.ts, tf)) == [t];
    FirstTickSummary(t, tf);
  }

  lemma WindowsStayCovered(published: seq<Candle>, c: Candle)
    ensures HasWindow(published + [c], c.openTs)
    ensures forall v: nat :: HasWindow(published, v) ==> HasWindow(published + [c], v)
  {
    assert (published + [c])[|published|] == c;
    forall v: nat | HasWindow(published, v)
      ensures HasWindow(published + [c], v)
    {
      var k :| 0 <= k < |published| && published[k].openTs == v;
      assert (published + [c])[k] == published[k];
    }
  }

  /** When timestamps never go back, a tick is charged to its own window. */
  lemma {:induction false} TimelyTicksAreChargedToTheirWindow(ticks: seq<Tick>, tf: Timeframe, start: nat)
    requires Nondecreasing(ticks)
    ensures ticks != [] ==> Latest(ticks) == Last(ticks).ts
    ensures Group(ticks, tf, start) == InWindow(ticks, tf, start)
  {
    if ticks != [] {
      TimelyTicksAreChargedToTheirWindow(Init(ticks), tf, start);
      if |ticks| > 1 {
        assert Last(Init(ticks)) == ticks[|ticks| - 2];
      }
    }
  }

  lemma {:induction false} OfSymbolIsOneSymbol(ticks: seq<Tick>, symbol: string)
    ensures OneSymbol(OfSymbol(ticks, symbol), symbol)
    ensures Nondecreasing(ticks) ==> Nondecreasing(OfSymbol(ticks, symbol))
    ensures forall t :: t in OfSymbol(ticks, symbol) ==> t in ticks
  {
    if ticks != [] {
      OfSymbolIsOneSymbol(Init(ticks), symbol);
      var mine := OfSymbol(Init(ticks), symbol);
      forall i | 0 <= i < |mine|
        ensures Nondecreasing(ticks) ==> mine[i].ts <= Last(ticks).ts
      {
        assert mine[i] in mine;
        var j :| 0 <= j < |Init(ticks)| && Init(ticks)[j] == mine[i];
        assert ticks[j] == mine[i];
      }
    }
  }

  /** Main result: over any stream, every (symbol, timeframe) of the builder is the batch of that
      symbol's ticks; with nondecreasing timestamps the groups are the plain windows. */
  lemma StreamingIsBatch(ticks: seq<Tick>, symbol: string, tf: Timeframe)
    requires IsSymbol(symbol) && forall t :: t in ticks ==> IsSymbol(t.symbol)
    requires OfSymbol(ticks, symbol) != []
    ensures IsBatch(Track(Lookup(Run(ticks).store, symbol, tf), Published(Run(ticks).log, symbol, tf)),
                    OfSymbol(ticks, symbol), symbol, tf)
    ensures Nondecreasing(ticks) ==>
              forall start: nat ::
                Group(OfSymbol(ticks, symbol), tf, start) == InWindow(OfSymbol(ticks, symbol), tf, start)
  {
    RunProjects(ticks, symbol, tf);
    OfSymbolIsOneSymbol(ticks, symbol);
    TrackIsBatch(OfSymbol(ticks, symbol), symbol, tf);
    if Nondecreasing(ticks) {
      forall start: nat
        ensures Group(OfSymbol(ticks, symbol), tf, start) == InWindow(OfSymbol(ticks, symbol), tf, start)
      {
        TimelyTicksAreChargedToTheirWindow(OfSymbol(ticks, symbol), tf, start);
      }
    }
  }

  // ---------- Conservation, in any order ----------

  lemma {:induction false} ReachedIsOneSymbol(ds: seq<Delivery>, symbol: string, tf: Timeframe)
    ensures OneSymbol(Reached(ds, symbol, tf), symbol)
  {
    if ds != [] {
      ReachedIsOneSymbol(Init(ds), symbol, tf);
    }
  }

  /** With failing publishes the builder is still exact about the ticks that reached a timeframe: its current candle
      and `previous` are those of their batch. */
  lemma FailingRunsAreBatchOfWhatReached(ds: seq<Delivery>, symbol: string, tf: Timeframe)
    requires AllValid(ds) && IsSymbol(symbol) && Reached(ds, symbol, tf) != []
    ensures IsBatch(Track(Lookup(RunWith(ds).store, symbol, tf), TrackOf(Reached(ds, symbol, tf), tf).published),
                    Reached(ds, symbol, tf), symbol, tf)
  {
    hide IsBatch;
    ReachedIsOneSymbol(ds, symbol, tf);
    RunWithProjects(ds, symbol, tf);
    TrackIsBatch(Reached(ds, symbol, tf), symbol, tf);
  }

  /** No quantity is lost or counted twice, whatever the order of the ticks. */
  lemma {:induction false} VolumeIsConserved(ticks: seq<Tick>, tf: Timeframe)
    requires ticks != []
    ensures TrackOf(ticks, tf).state.Some?
    ensures TrackOf(ticks, tf).state.value.current.openTs < TrackOf(ticks, tf).state.value.current.closeTs
    ensures TrackOf(ticks, tf).state.value.current.volume.decimals == 8
    ensures SumVolume(TrackOf(ticks, tf).published) + TrackOf(ticks, tf).state.value.current.volume.minor
      == SumQuantity(ticks)
  {
    var before, t := TrackOf(Init(ticks), tf), Last(ticks);
    if |ticks| > 1 {
      VolumeIsConserved(Init(ticks), tf);
      var c := before.state.value.current;
      if Align(t.ts, tf) >= c.closeTs && c.openTs < Align(t.ts, tf) {
        var done := c.MarkComplete();
        assert Init(before.published + [done]) == before.published && Last(before.published + [done]) == done;
      }
    } else {
      assert Init(ticks) == [];
    }
    assert before.published + [] == before.published;
  }

  /** A window is discarded without publication in no run: the branch that resets `previous` and
      publishes nothing is taken for the first tick only. */
  lemma OnlyTheFirstTickPublishesNothingOnRollover(ticks: seq<Tick>, t: Tick, symbol: string, tf: Timeframe)
    requires ticks != [] && OneSymbol(ticks + [t], symbol)
    ensures var c := TrackOf(ticks, tf).state.value.current;
      TrackOf(ticks + [t], tf).published == TrackOf(ticks, tf).published
        + if Align(t.ts, tf) >= c.closeTs then [c.MarkComplete()] else []
  {
    assert OneSymbol(ticks, symbol) by { forall x | x in ticks ensures x.symbol == symbol { assert x in ticks + [t]; } }
    TrackIsBatch(ticks, symbol, tf);
    assert Init(ticks + [t]) == ticks && Last(ticks + [t]) == t;
  }
}
