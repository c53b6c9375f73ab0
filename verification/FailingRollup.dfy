/** Which coarse candles are still the merge of the finer ones when publishes fail. */
module FailingRollup {
  import opened Common
  import opened MarketData
  import opened CandleBuilder
  import opened CandleBatch
  import opened CandleRollup

  /** A publish that fails on d keeps its tick from the coarse timeframe but not from the fine one. */
  predicate Disturbs(d: Delivery, s: string, fine: Timeframe, coarse: Timeframe) {
    d.tick.symbol == s && d.failsAt.Some? && fine.Rank() <= d.failsAt.value < coarse.Rank()
  }

  /** The latest timestamp that has reached the timeframe; zero if none has. */
  function LatestReached(ds: seq<Delivery>, s: string, tf: Timeframe): nat {
    if Reached(ds, s, tf) == [] then 0 else Latest(Reached(ds, s, tf))
  }

  function LatestAt(ds: seq<Delivery>, j: nat, s: string, tf: Timeframe): nat
    requires j < |ds|
  {
    LatestReached(ds[..j + 1], s, tf)
  }

  /** Whenever such a publish failed, no tick that had reached the fine timeframe was as late as w. */
  ghost predicate UndisturbedFrom(ds: seq<Delivery>, s: string, fine: Timeframe, coarse: Timeframe, w: nat) {
    forall j: nat :: j < |ds| && Disturbs(ds[j], s, fine, coarse) ==> LatestAt(ds, j, s, fine) < w
  }

  lemma UndisturbedInPrefix(ds: seq<Delivery>, s: string, fine: Timeframe, coarse: Timeframe, w: nat)
    requires ds != [] && UndisturbedFrom(ds, s, fine, coarse, w)
    ensures UndisturbedFrom(Init(ds), s, fine, coarse, w)
    ensures Disturbs(Last(ds), s, fine, coarse) ==> LatestReached(ds, s, fine) < w
  {
    hide LatestReached;
    forall j: nat | j < |ds| - 1 && Disturbs(ds[j], s, fine, coarse)
      ensures LatestAt(Init(ds), j, s, fine) < w
    {
      assert Init(ds)[..j + 1] == ds[..j + 1];
      assert LatestAt(ds, j, s, fine) < w;
    }
    if Disturbs(Last(ds), s, fine, coarse) {
      assert ds[..|ds| - 1 + 1] == ds;
      assert LatestAt(ds, |ds| - 1, s, fine) < w;
    }
  }

  // ---------- What has reached the two timeframes ----------

  lemma LatestOfNext(ds: seq<Delivery>, s: string, tf: Timeframe)
    requires ds != []
    ensures var mine := Last(ds).tick.symbol == s && Last(ds).Reaches(tf);
      (Reached(ds, s, tf) == [] <==> !mine && Reached(Init(ds), s, tf) == [])
      && LatestReached(ds, s, tf) ==
           if mine then Max(LatestReached(Init(ds), s, tf), Last(ds).tick.ts) else LatestReached(Init(ds), s, tf)
  {
    var mine, t := Reached(Init(ds), s, tf), Last(ds).tick;
    assert Init(mine + [t]) == mine && Last(mine + [t]) == t;
    assert mine + [] == mine;
  }

  /** What reaches the coarse timeframe reaches the fine one. */
  lemma {:induction false} FineIsNotBehind(ds: seq<Delivery>, s: string, fine: Timeframe, coarse: Timeframe)
    requires fine.Rank() <= coarse.Rank()
    ensures LatestReached(ds, s, coarse) <= LatestReached(ds, s, fine)
    ensures Reached(ds, s, coarse) != [] ==> Reached(ds, s, fine) != []
  {
    if ds != [] {
      FineIsNotBehind(Init(ds), s, fine, coarse);
      LatestOfNext(ds, s, fine);
      LatestOfNext(ds, s, coarse);
      hide LatestReached;
      hide Reached;
    }
  }

  /** If the coarse timeframe has not got as far as w, and no failed publish has taken the fine one there alone,
      the fine one has not got there either. */
  lemma {:induction false} FineIsNotAhead(ds: seq<Delivery>, s: string, fine: Timeframe, coarse: Timeframe, w: nat)
    requires fine.Rank() <= coarse.Rank() && UndisturbedFrom(ds, s, fine, coarse, w)
    requires Reached(ds, s, coarse) != [] ==> LatestReached(ds, s, coarse) < w
    ensures Reached(ds, s, fine) != [] ==> LatestReached(ds, s, fine) < w
  {
    if ds != [] {
      UndisturbedInPrefix(ds, s, fine, coarse, w);
      LatestOfNext(ds, s, fine);
      LatestOfNext(ds, s, coarse);
      hide LatestReached;
      hide Reached;
      hide UndisturbedFrom;
      FineIsNotAhead(Init(ds), s, fine, coarse, w);
    }
  }

  lemma {:induction false} DeliveredWasCompleted(ds: seq<Delivery>, s: string, tf: Timeframe)
    ensures forall p :: p in Delivered(ds, s, tf) ==> p in TrackOf(Reached(ds, s, tf), tf).published
  {
    if ds != [] {
      hide StepTrack;
      DeliveredWasCompleted(Init(ds), s, tf);
      var mine, t := Reached(Init(ds), s, tf), Last(ds).tick;
      assert Init(mine + [t]) == mine && Last(mine + [t]) == t;
      assert mine + [] == mine;
    }
  }

  /** What a timeframe that has been reached holds and has published: its current window is that of the latest
      tick, and everything published opened earlier. */
  lemma TrackSoFar(ds: seq<Delivery>, s: string, tf: Timeframe)
    requires Reached(ds, s, tf) != []
    ensures var st := TrackOf(Reached(ds, s, tf), tf).state;
      st.Some? && !st.value.current.isComplete && EightDecimals(Delivered(ds, s, tf) + [st.value.current])
      && st.value.current.openTs == Align(LatestReached(ds, s, tf), tf)
      && st.value.current.closeTs == st.value.current.openTs + tf.ToMilliseconds()
      && forall p :: p in Delivered(ds, s, tf) ==> p.openTs < st.value.current.openTs
  {
    var ticks := Reached(ds, s, tf);
    ReachedIsOneSymbol(ds, s, tf);
    TrackIsBatch(ticks, s, tf);
    DeliveredWasCompleted(ds, s, tf);
    var tr := TrackOf(ticks, tf);
    hide TrackOf;
    hide Delivered;
    hide Group;
    hide HasWindow;
    forall p | p in tr.published
      ensures p.volume.decimals == 8 && p.openTs < tr.state.value.current.openTs
    {
      var k :| 0 <= k < |tr.published| && tr.published[k] == p;
      assert PublishedRight(tr.published[k], ticks, s, tf);
    }
  }

  // ---------- The coarse candle and its parts ----------

  function StateOf(ds: seq<Delivery>, s: string, tf: Timeframe): Option<CandleState> {
    TrackOf(Reached(ds, s, tf), tf).state
  }

  /** The current coarse candle is the merge of the fine candles published from its window, and the current one. */
  ghost predicate Agree(f: Option<CandleState>, c: Option<CandleState>, published: seq<Candle>, fine: Timeframe,
                        coarse: Timeframe) {
    f.Some? && c.Some? && CurrentRolledUp(published, f.value.current, c.value.current, fine, coarse)
  }

  /** The tick reaches both, and the fine timeframe publishes what it completes on it. */
  predicate ReachesBoth(d: Delivery, s: string, coarse: Timeframe) {
    d.tick.symbol == s && d.Reaches(coarse)
  }

  lemma ThreeKinds(d: Delivery, s: string, fine: Timeframe, coarse: Timeframe)
    requires fine.Rank() < coarse.Rank()
    ensures Disturbs(d, s, fine, coarse) || ReachesBoth(d, s, coarse) || d.tick.symbol != s || !d.Reaches(fine)
    ensures ReachesBoth(d, s, coarse) ==> d.Reaches(fine) && d.Publishes(fine)
    ensures d.Publishes(coarse) ==> d.Reaches(coarse)
    ensures !d.Reaches(fine) ==> !d.Reaches(coarse) && !d.Publishes(fine)
  {
  }

  lemma AgreeWithTick(f: Option<CandleState>, c: Option<CandleState>, published: seq<Candle>, t: Tick, fine: Timeframe,
                      coarse: Timeframe)
    requires fine.Rank() <= coarse.Rank() && Agree(f, c, published, fine, coarse)
    ensures var (fs, fo) := StepTrack(f, t, fine); var (cs, co) := StepTrack(c, t, coarse);
      Agree(Some(fs), Some(cs), published + fo, fine, coarse)
      && forall p :: p in co ==> IsMergeOf(p, published + fo, coarse)
  {
    RollupStep(Track(f, published), Track(c, []), t, fine, coarse);
    hide StepTrack;
    hide IsMergeOf;
    hide CurrentRolledUp;
  }

  /** A new coarse window begins, with the fine timeframe not there yet. */
  lemma AgreeFromTick(f: Option<CandleState>, c: Option<CandleState>, published: seq<Candle>, t: Tick, fine: Timeframe,
                      coarse: Timeframe)
    requires fine.Rank() <= coarse.Rank() && (c.Some? ==> c.value.current.closeTs <= Align(t.ts, coarse))
    requires if f.None? then published == []
             else
               var x := f.value.current;
               x.openTs < Align(t.ts, coarse) && Align(x.openTs, fine) == x.openTs
               && x.closeTs == x.openTs + fine.ToMilliseconds()
               && EightDecimals(published + [x]) && forall p :: p in published ==> p.openTs < x.openTs
    ensures var (fs, fo) := StepTrack(f, t, fine); var (cs, co) := StepTrack(c, t, coarse);
      Agree(Some(fs), Some(cs), published + fo, fine, coarse)
  {
    if f.None? {
      CurrentsRestart([], t, fine, coarse);
      assert published + [] == [];
    } else {
      var x := f.value.current;
      FineRollsOver(x.openTs, t.ts, fine, coarse);
      NewPartKeepsDecimals(published, x, t, fine);
      CurrentsRestart(published + [x.MarkComplete()], t, fine, coarse);
    }
  }

  lemma FineRollsOver(openTs: nat, ts: nat, fine: Timeframe, coarse: Timeframe)
    requires fine.Rank() <= coarse.Rank() && Align(openTs, fine) == openTs && openTs < Align(ts, coarse)
    ensures openTs < openTs + fine.ToMilliseconds() <= Align(ts, fine)
  {
    WindowsNest(ts, fine, coarse);
    StartsBeforeClose(ts, openTs, fine);
    if ts < openTs + fine.ToMilliseconds() {
      InsideWindowAligns(ts, openTs, fine);
    }
  }

  lemma StateOfNext(ds: seq<Delivery>, s: string, tf: Timeframe)
    requires ds != []
    ensures var d := Last(ds); var (next, out) := StepTrack(StateOf(Init(ds), s, tf), d.tick, tf);
      StateOf(ds, s, tf) == (if d.tick.symbol == s && d.Reaches(tf) then Some(next) else StateOf(Init(ds), s, tf))
      && Delivered(ds, s, tf) == Delivered(Init(ds), s, tf) + if d.tick.symbol == s && d.Publishes(tf) then out else []
  {
    ReachedNext(ds, s, tf);
  }

  /** As long as no failed publish has disturbed the coarse timeframe from its current window on. */
  lemma {:induction false} CurrentsAgree(ds: seq<Delivery>, s: string, fine: Timeframe, coarse: Timeframe)
    requires fine.Rank() < coarse.Rank() && StateOf(ds, s, coarse).Some?
    requires UndisturbedFrom(ds, s, fine, coarse, StateOf(ds, s, coarse).value.current.openTs)
    ensures Agree(StateOf(ds, s, fine), StateOf(ds, s, coarse), Delivered(ds, s, fine), fine, coarse)
  {
    var d, w := Last(ds), StateOf(ds, s, coarse).value.current.openTs;
    UndisturbedInPrefix(ds, s, fine, coarse, w);
    ThreeKinds(d, s, fine, coarse);
    StateOfNext(ds, s, fine);
    StateOfNext(ds, s, coarse);
    hide UndisturbedFrom;
    hide Delivered;
    hide Reached;
    hide StepTrack;
    hide CurrentRolledUp;
    if Disturbs(d, s, fine, coarse) {
      TrackSoFar(ds, s, coarse);
      FineIsNotBehind(ds, s, fine, coarse);
      assert false;
    } else if ReachesBoth(d, s, coarse) {
      var c := StateOf(Init(ds), s, coarse);
      if c.Some? && Align(d.tick.ts, coarse) < c.value.current.closeTs {
        WindowStays(c, d.tick, coarse);
        CurrentsAgree(Init(ds), s, fine, coarse);
        AgreeWithTick(StateOf(Init(ds), s, fine), c, Delivered(Init(ds), s, fine), d.tick, fine, coarse);
      } else {
        WindowBegins(c, d.tick, coarse);
        BeginsTogether(Init(ds), s, d.tick, fine, coarse);
      }
    } else {
      CurrentsAgree(Init(ds), s, fine, coarse);
      assert Delivered(Init(ds), s, fine) + [] == Delivered(Init(ds), s, fine);
    }
  }

  lemma WindowStays(c: Option<CandleState>, t: Tick, tf: Timeframe)
    requires c.Some? && Align(t.ts, tf) < c.value.current.closeTs
    ensures StepTrack(c, t, tf).0.current.openTs == c.value.current.openTs
  {
  }

  lemma WindowBegins(c: Option<CandleState>, t: Tick, tf: Timeframe)
    requires c.Some? ==> c.value.current.closeTs <= Align(t.ts, tf)
    ensures StepTrack(c, t, tf).0.current.openTs == Align(t.ts, tf)
  {
  }

  lemma BeginsTogether(ds: seq<Delivery>, s: string, t: Tick, fine: Timeframe, coarse: Timeframe)
    requires fine.Rank() < coarse.Rank() && UndisturbedFrom(ds, s, fine, coarse, Align(t.ts, coarse))
    requires StateOf(ds, s, coarse).Some? ==> StateOf(ds, s, coarse).value.current.closeTs <= Align(t.ts, coarse)
    ensures var (fs, fo) := StepTrack(StateOf(ds, s, fine), t, fine);
      var (cs, co) := StepTrack(StateOf(ds, s, coarse), t, coarse);
      Agree(Some(fs), Some(cs), Delivered(ds, s, fine) + fo, fine, coarse)
  {
    hide StepTrack;
    hide UndisturbedFrom;
    hide Delivered;
    hide CurrentRolledUp;
    if StateOf(ds, s, coarse).Some? {
      TrackSoFar(ds, s, coarse);
    }
    FineIsNotAhead(ds, s, fine, coarse, Align(t.ts, coarse));
    if Reached(ds, s, fine) == [] {
      DeliveredWasCompleted(ds, s, fine);
      assert Delivered(ds, s, fine) == [] by {
        if Delivered(ds, s, fine) != [] {
          assert Delivered(ds, s, fine)[0] in Delivered(ds, s, fine);
        }
      }
    } else {
      TrackSoFar(ds, s, fine);
      WindowsNest(LatestReached(ds, s, fine), fine, fine);
    }
    AgreeFromTick(StateOf(ds, s, fine), StateOf(ds, s, coarse), Delivered(ds, s, fine), t, fine, coarse);
  }

  /** Delivery k makes the coarse timeframe publish c. */
  predicate PublishedAt(ds: seq<Delivery>, k: nat, s: string, tf: Timeframe, c: Candle)
    requires AllValid(ds) && k < |ds|
  {
    Published(RunWith(ds[..k + 1]).log, s, tf) == Published(RunWith(ds[..k]).log, s, tf) + [c]
  }

  lemma CompletedByTick(y: Option<CandleState>, t: Tick, tf: Timeframe, published: seq<Candle>, c: Candle)
    requires published + StepTrack(y, t, tf).1 == published + [c]
    ensures c in StepTrack(y, t, tf).1 && y.Some? && y.value.current.openTs == c.openTs
  {
    var out := StepTrack(y, t, tf).1;
    assert |out| == 1;
    assert (published + out)[|published|] == out[0] && (published + [c])[|published|] == c;
  }

  lemma EntryOfUndisturbed(before: seq<Delivery>, now: seq<Delivery>, s: string, fine: Timeframe, coarse: Timeframe,
                           c: Candle)
    requires now != [] && before == Init(now) && AllValid(now) && IsSymbol(s) && fine.Rank() < coarse.Rank()
    requires Published(RunWith(now).log, s, coarse) == Published(RunWith(before).log, s, coarse) + [c]
    requires UndisturbedFrom(before, s, fine, coarse, c.openTs)
    ensures IsMergeOf(c, Published(RunWith(now).log, s, fine), coarse)
  {
    RunWithProjects(before, s, coarse);
    RunWithProjects(now, s, coarse);
    RunWithProjects(now, s, fine);
    StateOfNext(now, s, coarse);
    StateOfNext(now, s, fine);
    ThreeKinds(Last(now), s, fine, coarse);
    hide RunWith;
    hide Published;
    hide Delivered;
    hide Reached;
    hide UndisturbedFrom;
    hide IsMergeOf;
    hide CurrentRolledUp;
    var t, y := Last(now).tick, StateOf(before, s, coarse);
    CompletedByTick(y, t, coarse, Delivered(before, s, coarse), c);
    hide StepTrack;
    CurrentsAgree(before, s, fine, coarse);
    AgreeWithTick(StateOf(before, s, fine), y, Delivered(before, s, fine), t, fine, coarse);
  }

  /** In a run in which publishes fail: a coarse candle is the merge of the fine candles of its window published
      before it, provided that no failure has kept a tick from the coarse timeframe alone since the fine one was
      in that window. */
  lemma UndisturbedEntryRollsUp(ds: seq<Delivery>, k: nat, s: string, fine: Timeframe, coarse: Timeframe, c: Candle)
    requires AllValid(ds) && k < |ds| && IsSymbol(s) && fine.Rank() < coarse.Rank()
    ensures PublishedAt(ds, k, s, coarse, c) && UndisturbedFrom(ds[..k], s, fine, coarse, c.openTs) ==>
      IsMergeOf(c, Published(RunWith(ds[..k + 1]).log, s, fine), coarse)
  {
    if PublishedAt(ds, k, s, coarse, c) && UndisturbedFrom(ds[..k], s, fine, coarse, c.openTs) {
      EntryOfUndisturbed(ds[..k], ds[..k + 1], s, fine, coarse, c);
    }
  }

  lemma DeliveredOfThree(a: Delivery, b: Delivery, c: Delivery, s: string, tf: Timeframe)
    requires a.tick.symbol == b.tick.symbol == c.tick.symbol == s && a.Reaches(tf) && a.Publishes(tf) && c.Publishes(tf)
    ensures var (one, first) := StepTrack(None, a.tick, tf);
      var (two, second) := StepTrack(Some(one), b.tick, tf);
      Delivered([a, b, c], s, tf)
      == first + (if b.Publishes(tf) then second else [])
         + StepTrack(Some(if b.Reaches(tf) then two else one), c.tick, tf).1
  {
    assert Init([a]) == [] && Init([a, b]) == [a] && Init([a, b, c]) == [a, b];
    hide StepTrack;
    StateOfNext([a], s, tf);
    StateOfNext([a, b], s, tf);
    StateOfNext([a, b, c], s, tf);
    assert StateOf([], s, tf) == None && Delivered([], s, tf) == [];
    hide StateOf;
    hide Delivered;
  }

  lemma OneMinuteMerged(minute: Candle)
    requires minute.openTs == 60000
    ensures Inside([minute], 0, 300000) == [minute] && Merge([minute], FiveMinutes).open == minute.open
  {
    assert Init([minute]) == [];
  }

  lemma ThreeSteps(first: Tick, second: Tick, third: Tick)
    requires first.price != second.price && first.ts == 0 && second.ts == 60000 && third.ts == 300000
    ensures var m := StepTrack(None, first, OneMinute); var f := StepTrack(None, first, FiveMinutes);
      m.1 == [] && f.1 == []
      && StepTrack(Some(StepTrack(Some(m.0), second, OneMinute).0), third, OneMinute).1
         == [Candle.FromTick(second, OneMinute).MarkComplete()]
      && StepTrack(Some(f.0), third, FiveMinutes).1 == [Candle.FromTick(first, FiveMinutes).MarkComplete()]
    ensures !IsMergeOf(Candle.FromTick(first, FiveMinutes).MarkComplete(),
                       [Candle.FromTick(second, OneMinute).MarkComplete()], FiveMinutes)
  {
    assert Align(0, FiveMinutes) == 0 && Align(60000, OneMinute) == 60000;
    OneMinuteMerged(Candle.FromTick(second, OneMinute).MarkComplete());
  }

  /** Three ticks a minute and five minutes apart; the publish of the first minute fails. */
  function LostMinute(first: Tick, second: Tick, third: Tick): seq<Delivery> {
    [Delivery(first, None), Delivery(second, Some(0)), Delivery(third, None)]
  }

  lemma LostMinuteDelivers(first: Tick, second: Tick, third: Tick, s: string)
    requires first.symbol == second.symbol == third.symbol == s && first.price != second.price
    requires first.ts == 0 && second.ts == 60000 && third.ts == 300000
    ensures var ds := LostMinute(first, second, third);
      Delivered(ds, s, OneMinute) == [Candle.FromTick(second, OneMinute).MarkComplete()]
      && Delivered(ds, s, FiveMinutes) == [Candle.FromTick(first, FiveMinutes).MarkComplete()]
  {
    ThreeSteps(first, second, third);
    hide StepTrack;
    DeliveredOfThree(Delivery(first, None), Delivery(second, Some(0)), Delivery(third, None), s, OneMinute);
    DeliveredOfThree(Delivery(first, None), Delivery(second, Some(0)), Delivery(third, None), s, FiveMinutes);
    hide Delivered;
    hide Candle.FromTick;
    hide Candle.MarkComplete;
    hide IsMergeOf;
  }

  /** Without the proviso it fails: the publish of a minute's candle is lost, and the five minutes hold what no
      published minute shows. */
  lemma LostMinuteBreaksRollup(first: Tick, second: Tick, third: Tick)
    requires first.symbol == second.symbol == third.symbol && IsSymbol(first.symbol) && first.price != second.price
    requires first.ts == 0 && second.ts == 60000 && third.ts == 300000
    ensures var ds, s := LostMinute(first, second, third), first.symbol;
      var five := Candle.FromTick(first, FiveMinutes).MarkComplete();
      AllValid(ds) && Published(RunWith(ds).log, s, FiveMinutes) == [five]
      && !IsMergeOf(five, Published(RunWith(ds).log, s, OneMinute), FiveMinutes)
  {
    var ds, s := LostMinute(first, second, third), first.symbol;
    hide Delivered;
    hide RunWith;
    hide Published;
    ThreeSteps(first, second, third);
    hide StepTrack;
    hide IsMergeOf;
    hide Candle.FromTick;
    hide Candle.MarkComplete;
    LostMinuteDelivers(first, second, third, s);
    RunWithProjects(ds, s, OneMinute);
    RunWithProjects(ds, s, FiveMinutes);
  }
}
