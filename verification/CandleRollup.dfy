/** The four timeframes agree: every coarse candle is the merge of the finer candles in its window. */
module CandleRollup {
  import opened Common
  import opened MarketData
  import opened CandleBuilder

  // ---------- Merging candles ----------

  /** A candle on its own, seen at a coarser timeframe. */
  function Lift(c: Candle, tf: Timeframe): Candle {
    c.(timeframe := tf, openTs := Align(c.openTs, tf), closeTs := Align(c.openTs, tf) + tf.ToMilliseconds(),
       isComplete := true)
  }

  function Absorb(m: Candle, c: Candle): Candle {
    m.(high := if c.high.minor > m.high.minor then c.high else m.high,
       low := if c.low.minor < m.low.minor then c.low else m.low,
       close := c.close,
       volume := m.volume.Add(c.volume))
  }

  /** First open, last close, extreme high and low, summed volume. */
  function Merge(cs: seq<Candle>, tf: Timeframe): (r: Candle)
    requires cs != []
  {
    if |cs| == 1 then Lift(cs[0], tf) else Absorb(Merge(Init(cs), tf), Last(cs))
  }

  /** The candles that open in [start, close). */
  function Inside(cs: seq<Candle>, start: nat, close: nat): seq<Candle> {
    if cs == [] then []
    else Inside(Init(cs), start, close) + if start <= Last(cs).openTs < close then [Last(cs)] else []
  }

  predicate EightDecimals(cs: seq<Candle>) {
    forall c :: c in cs ==> c.volume.decimals == 8
  }

  ghost predicate IsHighest(p: Price, cs: seq<Candle>) {
    (exists i :: 0 <= i < |cs| && cs[i].high == p) && forall i :: 0 <= i < |cs| ==> cs[i].high.minor <= p.minor
  }

  ghost predicate IsLowest(p: Price, cs: seq<Candle>) {
    (exists i :: 0 <= i < |cs| && cs[i].low == p) && forall i :: 0 <= i < |cs| ==> p.minor <= cs[i].low.minor
  }

  lemma AbsorbMeaning(cs: seq<Candle>, m: Candle, c: Candle)
    requires IsHighest(m.high, cs) && IsLowest(m.low, cs)
    ensures IsHighest(Absorb(m, c).high, cs + [c]) && IsLowest(Absorb(m, c).low, cs + [c])
  {
    hide Volume.Add;
    var i :| 0 <= i < |cs| && cs[i].high == m.high;
    var j :| 0 <= j < |cs| && cs[j].low == m.low;
    assert (cs + [c])[i] == cs[i] && (cs + [c])[j] == cs[j] && (cs + [c])[|cs|] == c;
  }

  lemma {:induction false} MergeExtremes(cs: seq<Candle>, tf: Timeframe)
    requires cs != []
    ensures IsHighest(Merge(cs, tf).high, cs) && IsLowest(Merge(cs, tf).low, cs)
  {
    if |cs| == 1 {
      assert cs[0].high == Merge(cs, tf).high && cs[0].low == Merge(cs, tf).low;
    } else {
      MergeExtremes(Init(cs), tf);
      AbsorbMeaning(Init(cs), Merge(Init(cs), tf), Last(cs));
      assert Init(cs) + [Last(cs)] == cs;
    }
  }

  lemma {:induction false} MergeShape(cs: seq<Candle>, tf: Timeframe)
    requires cs != [] && EightDecimals(cs)
    ensures var m := Merge(cs, tf);
      m.open == cs[0].open && m.close == Last(cs).close && m.volume == Volume(SumVolume(cs), 8)
      && m.openTs == Align(cs[0].openTs, tf) && m.isComplete && m.timeframe == tf && m.symbol == cs[0].symbol
  {
    hide Align;
    assert Last(cs) in cs;
    if |cs| == 1 {
      assert Init(cs) == [];
    } else {
      MergeShape(Init(cs), tf);
    }
  }

  /** What a merged candle says about its parts. */
  lemma MergeMeaning(cs: seq<Candle>, tf: Timeframe)
    requires cs != [] && EightDecimals(cs)
    ensures var m := Merge(cs, tf);
      && m.open == cs[0].open && m.close == Last(cs).close
      && m.volume == Volume(SumVolume(cs), 8)
      && IsHighest(m.high, cs) && IsLowest(m.low, cs)
      && m.openTs == Align(cs[0].openTs, tf) && m.isComplete && m.timeframe == tf && m.symbol == cs[0].symbol
  {
    MergeExtremes(cs, tf);
    MergeShape(cs, tf);
  }

  lemma MergeOfAppend(xs: seq<Candle>, c: Candle, tf: Timeframe)
    ensures Merge(xs + [c], tf) == if xs == [] then Lift(c, tf) else Absorb(Merge(xs, tf), c)
  {
    assert Init(xs + [c]) == xs && Last(xs + [c]) == c;
  }

  lemma InsideOfAppend(cs: seq<Candle>, c: Candle, start: nat, close: nat)
    ensures Inside(cs + [c], start, close)
      == if start <= c.openTs < close then Inside(cs, start, close) + [c] else Inside(cs, start, close)
  {
    assert Init(cs + [c]) == cs && Last(cs + [c]) == c;
    assert Inside(cs, start, close) + [] == Inside(cs, start, close);
  }

  lemma {:induction false} InsideKeepsDecimals(cs: seq<Candle>, start: nat, close: nat)
    requires EightDecimals(cs)
    ensures EightDecimals(Inside(cs, start, close))
  {
    if cs != [] {
      InsideKeepsDecimals(Init(cs), start, close);
    }
  }

  lemma {:induction false} InsideIsEmptyBefore(cs: seq<Candle>, start: nat, close: nat)
    requires forall c :: c in cs ==> c.openTs < start
    ensures Inside(cs, start, close) == []
  {
    if cs != [] {
      assert Last(cs) in cs;
      InsideIsEmptyBefore(Init(cs), start, close);
    }
  }

  /** A tick folded into the last part is a tick folded into the merge. */
  lemma MergeWithTick(xs: seq<Candle>, f: Candle, t: Tick, tf: Timeframe)
    requires EightDecimals(xs + [f])
    ensures Merge(xs + [f.WithTick(t)], tf) == Merge(xs + [f], tf).WithTick(t)
  {
    MergeOfAppend(xs, f, tf);
    MergeOfAppend(xs, f.WithTick(t), tf);
    assert f in xs + [f];
    if xs != [] {
      assert forall c :: c in xs ==> c in xs + [f];
      MergeMeaning(xs, tf);
    }
  }

  /** A tick that opens a new part is a tick folded into the merge of the parts so far. */
  lemma MergeWithNewPart(xs: seq<Candle>, f: Candle, t: Tick, fine: Timeframe, coarse: Timeframe)
    ensures Merge(xs + [f.MarkComplete()] + [Candle.FromTick(t, fine)], coarse) == Merge(xs + [f], coarse).WithTick(t)
    ensures Merge(xs + [f.MarkComplete()], coarse) == Merge(xs + [f], coarse)
  {
    MergeOfAppend(xs, f, coarse);
    MergeOfAppend(xs, f.MarkComplete(), coarse);
    MergeOfAppend(xs + [f.MarkComplete()], Candle.FromTick(t, fine), coarse);
  }

  // ---------- Two timeframes of one symbol ----------

  ghost predicate RolledUp(f: Track, c: Track, fine: Timeframe, coarse: Timeframe) {
    f.state.Some? && c.state.Some?
    && CurrentRolledUp(f.published, f.state.value.current, c.state.value.current, fine, coarse)
    && PublishedRolledUp(f.published, c.published, c.state.value.current.openTs, coarse)
  }

  /** The current coarse candle y is the merge of the fine candles of its window, the current one x last. */
  ghost predicate CurrentRolledUp(published: seq<Candle>, x: Candle, y: Candle, fine: Timeframe, coarse: Timeframe) {
    x.closeTs == x.openTs + fine.ToMilliseconds() && Align(x.openTs, fine) == x.openTs
    && y.openTs == Align(x.openTs, coarse) && y.closeTs == y.openTs + coarse.ToMilliseconds()
    && EightDecimals(published + [x])
    && (forall p :: p in published ==> p.openTs < x.openTs)
    && !y.isComplete
    && y.MarkComplete() == Merge(Inside(published, y.openTs, y.closeTs) + [x], coarse)
  }

  ghost predicate PublishedRolledUp(fine: seq<Candle>, published: seq<Candle>, currentTs: nat, coarse: Timeframe) {
    forall p :: p in published ==> p.closeTs <= currentTs && IsMergeOf(p, fine, coarse)
  }

  /** p is the merge of the candles of `fine` that open in p's window, of which there is at least one. */
  ghost predicate IsMergeOf(p: Candle, fine: seq<Candle>, coarse: Timeframe) {
    Inside(fine, p.openTs, p.closeTs) != [] && p == Merge(Inside(fine, p.openTs, p.closeTs), coarse)
  }

  lemma StartsBeforeClose(ts: nat, start: nat, tf: Timeframe)
    requires Align(start, tf) == start
    ensures Align(ts, tf) < start + tf.ToMilliseconds() <==> ts < start + tf.ToMilliseconds()
  {
    var close := start + tf.ToMilliseconds();
    if close <= ts {
      assert close == (start / tf.ToMilliseconds() + 1) * tf.ToMilliseconds();
      AlignIsUnique(close, start / tf.ToMilliseconds() + 1, tf);
      AlignIsMonotone(close, ts, tf);
    }
  }

  lemma InsideWindowAligns(ts: nat, start: nat, tf: Timeframe)
    requires Align(start, tf) == start && start <= ts < start + tf.ToMilliseconds()
    ensures Align(ts, tf) == start
  {
    AlignIsUnique(ts, start / tf.ToMilliseconds(), tf);
  }

  lemma FirstTickRollsUp(t: Tick, fine: Timeframe, coarse: Timeframe)
    requires fine.Rank() <= coarse.Rank()
    ensures RolledUp(Track(Some(CandleState(Candle.FromTick(t, fine), None)), []),
                     Track(Some(CandleState(Candle.FromTick(t, coarse), None)), []), fine, coarse)
  {
    CurrentsRestart([], t, fine, coarse);
  }

  lemma RollupStep(f: Track, c: Track, t: Tick, fine: Timeframe, coarse: Timeframe)
    requires fine.Rank() <= coarse.Rank() && RolledUp(f, c, fine, coarse)
    ensures var (fs, fo) := StepTrack(f.state, t, fine); var (cs, co) := StepTrack(c.state, t, coarse);
      RolledUp(Track(Some(fs), f.published + fo), Track(Some(cs), c.published + co), fine, coarse)
  {
    var x, y := f.state.value.current, c.state.value.current;
    WindowsNest(x.openTs, fine, coarse);
    WindowsNest(y.openTs, coarse, coarse);
    WindowsNest(x.openTs, coarse, coarse);
    StartsBeforeClose(t.ts, x.openTs, fine);
    StartsBeforeClose(t.ts, y.openTs, coarse);
    assert f.published + [] == f.published && c.published + [] == c.published;
    if t.ts < x.closeTs {
      SameFineWindow(f, c, t, fine, coarse);
    } else if t.ts < y.closeTs {
      NewFineWindow(f, c, t, fine, coarse);
    } else {
      NewCoarseWindow(f, c, t, fine, coarse);
    }
  }

  lemma SameFineWindow(f: Track, c: Track, t: Tick, fine: Timeframe, coarse: Timeframe)
    requires RolledUp(f, c, fine, coarse)
    ensures var x, y := f.state.value.current, c.state.value.current;
      RolledUp(f.(state := Some(CandleState(x.WithTick(t), f.state.value.previous))),
               c.(state := Some(CandleState(y.WithTick(t), c.state.value.previous))), fine, coarse)
  {
    var x, y := f.state.value.current, c.state.value.current;
    var xs := Inside(f.published, y.openTs, y.closeTs);
    assert x in f.published + [x];
    InsideKeepsDecimals(f.published, y.openTs, y.closeTs) by {
      assert forall p :: p in f.published ==> p in f.published + [x];
    }
    MergeWithTick(xs, x, t, coarse);
    assert y.WithTick(t).MarkComplete() == y.MarkComplete().WithTick(t);
  }

  lemma NewPartKeepsDecimals(published: seq<Candle>, x: Candle, t: Tick, fine: Timeframe)
    requires EightDecimals(published + [x]) && forall p :: p in published ==> p.openTs < x.openTs
    ensures EightDecimals(published + [x.MarkComplete()] + [Candle.FromTick(t, fine)])
    ensures x.openTs < Align(t.ts, fine) ==>
              forall p :: p in published + [x.MarkComplete()] ==> p.openTs < Align(t.ts, fine)
  {
    assert x in published + [x] && forall p :: p in published ==> p in published + [x];
  }

  lemma NewFineWindow(f: Track, c: Track, t: Tick, fine: Timeframe, coarse: Timeframe)
    requires fine.Rank() <= coarse.Rank() && RolledUp(f, c, fine, coarse)
    requires f.state.value.current.closeTs <= t.ts < c.state.value.current.closeTs
    requires f.state.value.current.closeTs <= Align(t.ts, fine)
    ensures var x, y := f.state.value.current, c.state.value.current;
      RolledUp(Track(Some(CandleState(Candle.FromTick(t, fine), Some(x.MarkComplete()))),
                     f.published + [x.MarkComplete()]),
               c.(state := Some(CandleState(y.WithTick(t), c.state.value.previous))), fine, coarse)
  {
    var x, y := f.state.value.current, c.state.value.current;
    var xs := Inside(f.published, y.openTs, y.closeTs);
    WindowsNest(t.ts, fine, coarse);
    WindowsNest(t.ts, fine, fine);
    WindowsNest(x.openTs, coarse, coarse);
    InsideWindowAligns(t.ts, y.openTs, coarse);
    WindowsNest(x.openTs, fine, coarse);
    InsideOfAppend(f.published, x.MarkComplete(), y.openTs, y.closeTs);
    MergeWithNewPart(xs, x, t, fine, coarse);
    assert y.WithTick(t).MarkComplete() == y.MarkComplete().WithTick(t);
    OldMergesStay(f.published, x.MarkComplete(), c.published, coarse);
    NewPartKeepsDecimals(f.published, x, t, fine);
  }

  lemma NewCoarseWindow(f: Track, c: Track, t: Tick, fine: Timeframe, coarse: Timeframe)
    requires fine.Rank() <= coarse.Rank() && RolledUp(f, c, fine, coarse)
    requires f.state.value.current.closeTs <= Align(t.ts, fine)
    requires c.state.value.current.closeTs <= Align(t.ts, coarse)
    ensures var x, y := f.state.value.current, c.state.value.current;
      RolledUp(Track(Some(CandleState(Candle.FromTick(t, fine), Some(x.MarkComplete()))),
                     f.published + [x.MarkComplete()]),
               Track(Some(CandleState(Candle.FromTick(t, coarse), Some(y.MarkComplete()))),
                     c.published + [y.MarkComplete()]), fine, coarse)
  {
    var x, y := f.state.value.current, c.state.value.current;
    var xs := f.published + [x.MarkComplete()];
    NewPartKeepsDecimals(f.published, x, t, fine);
    CurrentsRestart(xs, t, fine, coarse) by {
      WindowsNest(x.openTs, fine, coarse);
      WindowsNest(t.ts, fine, coarse);
    }
    OldMergesStay(f.published, x.MarkComplete(), c.published, coarse);
    assert IsMergeOf(y.MarkComplete(), xs, coarse) by {
      WindowsNest(x.openTs, fine, coarse);
      InsideOfAppend(f.published, x.MarkComplete(), y.openTs, y.closeTs);
      MergeWithNewPart(Inside(f.published, y.openTs, y.closeTs), x, t, fine, coarse);
    }
  }

  lemma CurrentsRestart(published: seq<Candle>, t: Tick, fine: Timeframe, coarse: Timeframe)
    requires fine.Rank() <= coarse.Rank()
    requires EightDecimals(published + [Candle.FromTick(t, fine)])
    requires forall p :: p in published ==> p.openTs < Align(t.ts, coarse)
    ensures CurrentRolledUp(published, Candle.FromTick(t, fine), Candle.FromTick(t, coarse), fine, coarse)
  {
    WindowsNest(t.ts, fine, coarse);
    WindowsNest(t.ts, fine, fine);
    InsideIsEmptyBefore(published, Align(t.ts, coarse), Align(t.ts, coarse) + coarse.ToMilliseconds());
    assert [] + [Candle.FromTick(t, fine)] == [Candle.FromTick(t, fine)];
  }

  lemma OldMergesStay(fine: seq<Candle>, next: Candle, published: seq<Candle>, coarse: Timeframe)
    requires forall p :: p in published ==> p.closeTs <= next.openTs && IsMergeOf(p, fine, coarse)
    ensures forall p :: p in published ==> IsMergeOf(p, fine + [next], coarse)
  {
    forall p | p in published
      ensures IsMergeOf(p, fine + [next], coarse)
    {
      InsideOfAppend(fine, next, p.openTs, p.closeTs);
    }
  }

  /** For ticks of one symbol in any order. */
  lemma {:induction false} TracksRollUp(ticks: seq<Tick>, fine: Timeframe, coarse: Timeframe)
    requires ticks != [] && fine.Rank() <= coarse.Rank()
    ensures RolledUp(TrackOf(ticks, fine), TrackOf(ticks, coarse), fine, coarse)
  {
    if |ticks| == 1 {
      assert Init(ticks) == [];
      FirstTickRollsUp(Last(ticks), fine, coarse);
    } else {
      TracksRollUp(Init(ticks), fine, coarse);
      RollupStep(TrackOf(Init(ticks), fine), TrackOf(Init(ticks), coarse), Last(ticks), fine, coarse);
    }
  }

  // ---------- The whole publication log ----------

  /** The k-th published candle is the merge of the finer candles of its symbol published before it. */
  ghost predicate EntryRolledUp(log: seq<Candle>, k: nat, fine: Timeframe)
    requires k < |log|
  {
    IsMergeOf(log[k], Published(log[..k], log[k].symbol, fine), log[k].timeframe)
  }

  ghost predicate LogRolledUp(log: seq<Candle>) {
    forall k, fine: Timeframe {:trigger EntryRolledUp(log, k, fine)} ::
      0 <= k < |log| && fine.Rank() < log[k].timeframe.Rank() ==> EntryRolledUp(log, k, fine)
  }

  lemma LogRollsUpOnAppend(log: seq<Candle>, c: Candle)
    requires LogRolledUp(log)
    requires forall fine: Timeframe ::
      fine.Rank() < c.timeframe.Rank() ==> IsMergeOf(c, Published(log, c.symbol, fine), c.timeframe)
    ensures LogRolledUp(log + [c])
  {
    var log' := log + [c];
    forall k, fine: Timeframe | 0 <= k < |log'| && fine.Rank() < log'[k].timeframe.Rank()
      ensures EntryRolledUp(log', k, fine)
    {
      if k < |log| {
        assert EntryRolledUp(log, k, fine);
        assert log'[..k] == log[..k];
      } else {
        assert log'[..k] == log;
      }
    }
  }

  lemma {:induction false} ExecuteSomeRollsUp(ticks: seq<Tick>, t: Tick, n: nat)
    requires n <= |ALL| && IsSymbol(t.symbol) && forall x :: x in ticks ==> IsSymbol(x.symbol)
    requires LogRolledUp(Run(ticks).log)
    ensures LogRolledUp(ExecuteSome(Run(ticks), t, n).log)
  {
    if n > 0 {
      ExecuteSomeRollsUp(ticks, t, n - 1);
      LogGrows(ticks, t, n);
      hide LogRolledUp;
      hide ExecuteSome;
      hide Run;
      var before, out := ExecuteSome(Run(ticks), t, n - 1).log, Output(ticks, t, n);
      if out == [] {
        assert before + out == before;
      } else {
        NextEntryRollsUp(ticks, t, n, out[0]);
        LogRollsUpOnAppend(before, out[0]);
      }
    }
  }

  /** What the n-th timeframe publishes on tick t. */
  function Output(ticks: seq<Tick>, t: Tick, n: nat): seq<Candle>
    requires 0 < n <= |ALL|
  {
    StepTrack(TrackOf(OfSymbol(ticks, t.symbol), ALL[n - 1]).state, t, ALL[n - 1]).1
  }

  lemma LogGrows(ticks: seq<Tick>, t: Tick, n: nat)
    requires 0 < n <= |ALL| && IsSymbol(t.symbol) && forall x :: x in ticks ==> IsSymbol(x.symbol)
    ensures ExecuteSome(Run(ticks), t, n).log == ExecuteSome(Run(ticks), t, n - 1).log + Output(ticks, t, n)
    ensures Output(ticks, t, n) != [] ==>
      Output(ticks, t, n) == [Output(ticks, t, n)[0]] && Output(ticks, t, n)[0].symbol == t.symbol
      && Output(ticks, t, n)[0].timeframe == ALL[n - 1]
  {
    hide Run;
    hide ExecuteSome;
    hide StepTrack;
    hide Tagged;
    hide TrackOf;
    hide Published;
    hide OfSymbol;
    hide Lookup;
    var e, s, coarse := Run(ticks), t.symbol, ALL[n - 1];
    RankIsPosition(coarse, n - 1);
    RunProjects(ticks, s, coarse);
    ExecuteSomeEffect(e, t, n - 1, s, coarse);
    NextLog(e, t, n);
    OutputIsTagged(ExecuteSome(e, t, n - 1), t, coarse);
  }

  lemma NextLog(e: BuilderState, t: Tick, n: nat)
    requires 0 < n <= |ALL|
    ensures var m := ExecuteSome(e, t, n - 1);
      ExecuteSome(e, t, n).log == m.log + StepTrack(Lookup(m.store, t.symbol, ALL[n - 1]), t, ALL[n - 1]).1
  {
    hide StepTrack;
  }

  lemma OutputIsTagged(m: BuilderState, t: Tick, tf: Timeframe)
    requires Tagged(m) && IsSymbol(t.symbol)
    ensures var out := StepTrack(Lookup(m.store, t.symbol, tf), t, tf).1;
      out != [] ==> out == [out[0]] && out[0].symbol == t.symbol && out[0].timeframe == tf
  {
    hide Align;
    if StepTrack(Lookup(m.store, t.symbol, tf), t, tf).1 != [] {
      assert Key(t.symbol, tf) in m.store;
    }
  }

  /** What the n-th timeframe publishes is the merge of what the finer ones have published by then. */
  lemma NextEntryRollsUp(ticks: seq<Tick>, t: Tick, n: nat, c: Candle)
    requires 0 < n <= |ALL| && IsSymbol(t.symbol) && forall x :: x in ticks ==> IsSymbol(x.symbol)
    requires Output(ticks, t, n) == [c]
    ensures forall fine: Timeframe :: fine.Rank() < ALL[n - 1].Rank() ==>
      IsMergeOf(c, Published(ExecuteSome(Run(ticks), t, n - 1).log, t.symbol, fine), ALL[n - 1])
  {
    var s, coarse, mine := t.symbol, ALL[n - 1], OfSymbol(ticks, t.symbol);
    RankIsPosition(coarse, n - 1);
    hide IsMergeOf;
    forall fine: Timeframe | fine.Rank() < coarse.Rank()
      ensures IsMergeOf(c, Published(ExecuteSome(Run(ticks), t, n - 1).log, s, fine), coarse)
    {
      RunProjects(ticks, s, fine);
      ExecuteSomeEffect(Run(ticks), t, n - 1, s, fine);
      NewEntryRollsUp(mine, t, fine, coarse);
    }
  }

  lemma NewEntryRollsUp(mine: seq<Tick>, t: Tick, fine: Timeframe, coarse: Timeframe)
    requires fine.Rank() < coarse.Rank()
    requires StepTrack(TrackOf(mine, coarse).state, t, coarse).1 != []
    ensures IsMergeOf(StepTrack(TrackOf(mine, coarse).state, t, coarse).1[0],
                      TrackOf(mine, fine).published + StepTrack(TrackOf(mine, fine).state, t, fine).1, coarse)
  {
    assert Init(mine + [t]) == mine && Last(mine + [t]) == t;
    TracksRollUp(mine + [t], fine, coarse);
    assert StepTrack(TrackOf(mine, coarse).state, t, coarse).1[0] in TrackOf(mine + [t], coarse).published;
  }

  /** Main result: in every run, ticks in any order, every 5m, 15m and 1h candle published is the merge of
      the finer candles of its symbol in its window, all of them published earlier. */
  lemma {:induction false} RunRollsUp(ticks: seq<Tick>)
    requires forall t :: t in ticks ==> IsSymbol(t.symbol)
    ensures LogRolledUp(Run(ticks).log)
  {
    if ticks != [] {
      RunRollsUp(Init(ticks));
      ExecuteSomeRollsUp(Init(ticks), Last(ticks), |ALL|);
    }
  }
}
