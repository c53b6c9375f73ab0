/** The streaming candle builder: one tick is folded into the current candle of all four timeframes. */
module CandleBuilder {
  import opened Common
  import opened MarketData

  datatype CandleState = CandleState(current: Candle, previous: Option<Candle>)

  // ---------- What one tick does to one (symbol, timeframe) ----------

  /** New state and the candles published, none or one. */
  function StepTrack(st: Option<CandleState>, t: Tick, tf: Timeframe): (r: (CandleState, seq<Candle>)) {
    var windowStart := Align(t.ts, tf);
    if st.None? || windowStart >= st.value.current.closeTs then
      if st.Some? && st.value.current.openTs < windowStart then
        var complete := st.value.current.MarkComplete();
        (CandleState(Candle.FromTick(t, tf), Some(complete)), [complete])
      else
        (CandleState(Candle.FromTick(t, tf), None), [])
    else
      (CandleState(st.value.current.WithTick(t), st.value.previous), [])
  }

  /** The life of one (symbol, timeframe): its stored state and everything it has published. */
  datatype Track = Track(state: Option<CandleState>, published: seq<Candle>)

  function TrackOf(ticks: seq<Tick>, tf: Timeframe): (r: Track) {
    if ticks == [] then Track(None, [])
    else
      var before := TrackOf(Init(ticks), tf);
      var (next, out) := StepTrack(before.state, Last(ticks), tf);
      Track(Some(next), before.published + out)
  }

  // ---------- The whole builder ----------

  /** `log` lists every published candle of every symbol and timeframe, in publication order. */
  datatype BuilderState = BuilderState(store: map<string, CandleState>, log: seq<Candle>)

  function Key(symbol: string, tf: Timeframe): string {
    symbol + "::" + tf.Text()
  }

  function Lookup(store: map<string, CandleState>, symbol: string, tf: Timeframe): Option<CandleState> {
    if Key(symbol, tf) in store then Some(store[Key(symbol, tf)]) else None
  }

  function ProcessTimeframe(e: BuilderState, t: Tick, tf: Timeframe): BuilderState {
    var (next, out) := StepTrack(Lookup(e.store, t.symbol, tf), t, tf);
    BuilderState(e.store[Key(t.symbol, tf) := next], e.log + out)
  }

  /** The first n timeframes of ALL have been processed. */
  function ExecuteSome(e: BuilderState, t: Tick, n: nat): BuilderState
    requires n <= |ALL|
  {
    if n == 0 then e else ProcessTimeframe(ExecuteSome(e, t, n - 1), t, ALL[n - 1])
  }

  function ExecuteTick(e: BuilderState, t: Tick): BuilderState {
    ExecuteSome(e, t, |ALL|)
  }

  /** A publish that throws at timeframe n: its candle has rolled over in the store, nothing is published
      for it, and the coarser timeframes never see the tick. */
  function FailedPublish(e: BuilderState, t: Tick, n: nat): BuilderState
    requires n < |ALL|
  {
    BuilderState(ExecuteSome(e, t, n + 1).store, ExecuteSome(e, t, n).log)
  }

  function Run(ticks: seq<Tick>): BuilderState {
    if ticks == [] then BuilderState(map[], []) else ExecuteTick(Run(Init(ticks)), Last(ticks))
  }

  // ---------- The classes ----------

  class InMemoryCandleStore {
    var entries: map<string, CandleState>

    constructor ()
      ensures entries == map[]
    {
      entries := map[];
    }

    method Get(symbol: string, tf: Timeframe) returns (state: Option<CandleState>)
      ensures state == Lookup(entries, symbol, tf)
    {
      if Key(symbol, tf) in entries {
        state := Some(entries[Key(symbol, tf)]);
      } else {
        state := None;
      }
    }

    method Set(symbol: string, tf: Timeframe, state: CandleState)
      modifies this
      ensures entries == old(entries)[Key(symbol, tf) := state]
    {
      entries := entries[Key(symbol, tf) := state];
    }

    method Remove(symbol: string, tf: Timeframe)
      modifies this
      ensures entries == old(entries) - {Key(symbol, tf)}
    {
      entries := entries - {Key(symbol, tf)};
    }

    method Clear()
      modifies this
      ensures entries == map[]
    {
      entries := map[];
    }
  }

  /** The broker behind the publisher port: attempt number i is accepted iff `accepts(i)`. */
  class CandlePublisher {
    const accepts: nat -> bool
    var attempts: nat
    var log: seq<Candle>

    constructor (accepts: nat -> bool)
      ensures this.accepts == accepts && attempts == 0 && log == []
    {
      this.accepts := accepts;
      attempts, log := 0, [];
    }

    method PublishCandle(c: Candle) returns (ok: bool)
      modifies this
      ensures ok == accepts(old(attempts)) && attempts == old(attempts) + 1
      ensures log == if ok then old(log) + [c] else old(log)
    {
      ok := accepts(attempts);
      attempts := attempts + 1;
      if ok {
        log := log + [c];
      }
    }
  }

  datatype PublishedCandle = PublishedCandle(candle: Candle, timeframe: Timeframe)

  class BuildCandlesUseCase {
    const store: InMemoryCandleStore
    const publisher: CandlePublisher

    constructor (store: InMemoryCandleStore, publisher: CandlePublisher)
      ensures this.store == store && this.publisher == publisher
    {
      this.store := store;
      this.publisher := publisher;
    }

    ghost function Contents(): BuilderState
      reads store, publisher
    {
      BuilderState(store.entries, publisher.log)
    }

    /** Folds one tick into all four timeframes; `ok` is false when a publish threw. */
    method Execute(t: Tick) returns (ok: bool, published: seq<PublishedCandle>)
      modifies store, publisher
      ensures ok ==> Contents() == ExecuteTick(old(Contents()), t)
      ensures !ok ==> exists n: nat :: n < |ALL| && Contents() == FailedPublish(old(Contents()), t, n)
      ensures old(publisher.attempts) <= publisher.attempts
      ensures ok <==> forall i :: old(publisher.attempts) <= i < publisher.attempts ==> publisher.accepts(i)
      ensures publisher.log == old(publisher.log) + CandlesOf(published)
    {
      published := [];
      ok := true;
      hide ProcessTimeframe;
      hide CandlesOf;
      for n := 0 to |ALL|
        invariant ok && Contents() == ExecuteSome(old(Contents()), t, n)
        invariant old(publisher.attempts) <= publisher.attempts
        invariant forall i :: old(publisher.attempts) <= i < publisher.attempts ==> publisher.accepts(i)
        invariant publisher.log == old(publisher.log) + CandlesOf(published)
      {
        var more;
        ok, more := ProcessOne(t, ALL[n]);
        if !ok {
          assert Contents() == FailedPublish(old(Contents()), t, n);
          return;
        }
        CandlesOfAppends(published, more);
        published := published + more;
      }
    }

    method ProcessOne(t: Tick, tf: Timeframe) returns (ok: bool, published: seq<PublishedCandle>)
      modifies store, publisher
      ensures Contents().store == ProcessTimeframe(old(Contents()), t, tf).store
      ensures Contents().log == if ok then ProcessTimeframe(old(Contents()), t, tf).log else old(publisher.log)
      ensures publisher.log == old(publisher.log) + CandlesOf(published)
      ensures old(publisher.attempts) <= publisher.attempts
      ensures ok <==> forall i :: old(publisher.attempts) <= i < publisher.attempts ==> publisher.accepts(i)
    {
      published := [];
      ok := true;
      var state := store.Get(t.symbol, tf);
      var windowStart := Align(t.ts, tf);
      if state.None? || windowStart >= state.value.current.closeTs {
        if state.Some? && state.value.current.openTs < windowStart {
          var complete := state.value.current.MarkComplete();
          store.Set(t.symbol, tf, CandleState(Candle.FromTick(t, tf), Some(complete)));
          ok := publisher.PublishCandle(complete);
          if ok {
            published := [PublishedCandle(complete, tf)];
          }
        } else {
          store.Set(t.symbol, tf, CandleState(Candle.FromTick(t, tf), None));
        }
      } else {
        store.Set(t.symbol, tf, CandleState(state.value.current.WithTick(t), state.value.previous));
      }
    }
  }

  function CandlesOf(ps: seq<PublishedCandle>): (r: seq<Candle>)
    ensures |r| == |ps| && forall i :: 0 <= i < |ps| ==> r[i] == ps[i].candle
  {
    seq(|ps|, i requires 0 <= i < |ps| => ps[i].candle)
  }

  lemma CandlesOfAppends(a: seq<PublishedCandle>, b: seq<PublishedCandle>)
    ensures CandlesOf(a + b) == CandlesOf(a) + CandlesOf(b)
  {
  }

  // ---------- Symbols do not disturb one another ----------

  predicate IsUpperAlphanumeric(s: string) {
    forall i :: 0 <= i < |s| ==> 'A' <= s[i] <= 'Z' || '0' <= s[i] <= '9'
  }

  /** The shape every parsed symbol has: two runs of 2..10 capitals or digits around a slash. */
  predicate IsSymbol(s: string) {
    exists k :: 2 <= k <= 10 && k < |s| && 2 <= |s| - k - 1 <= 10 && s[k] == '/'
      && IsUpperAlphanumeric(s[..k]) && IsUpperAlphanumeric(s[k + 1..])
  }

  lemma SymbolHasNoColon(s: string)
    requires IsSymbol(s)
    ensures ':' !in s
  {
    var k :| 2 <= k <= 10 && k < |s| && s[k] == '/' && IsUpperAlphanumeric(s[..k]) && IsUpperAlphanumeric(s[k + 1..]);
    forall i | 0 <= i < |s|
      ensures s[i] != ':'
    {
      if i < k {
        assert s[i] == s[..k][i];
      } else if i > k {
        assert s[i] == s[k + 1..][i - k - 1];
      }
    }
  }

  /** The store's string keys never collide. */
  lemma KeyIsInjective(s: string, tf: Timeframe, s': string, tf': Timeframe)
    requires IsSymbol(s) && IsSymbol(s')
    ensures Key(s, tf) == Key(s', tf') <==> s == s' && tf == tf'
  {
    SymbolHasNoColon(s);
    SymbolHasNoColon(s');
    var a, b := Key(s, tf), Key(s', tf');
    assert a[|s|] == ':' && b[|s'|] == ':';
    if a == b {
      assert forall i :: 0 <= i < |s| ==> a[i] == s[i] && a[i] != ':';
      assert forall i :: 0 <= i < |s'| ==> b[i] == s'[i] && b[i] != ':';
      assert |s| == |s'|;
      assert s == a[..|s|] == b[..|s'|] == s';
      assert tf.Text() == a[|s| + 2..] == b[|s'| + 2..] == tf'.Text();
    }
  }

  function OfSymbol(ticks: seq<Tick>, symbol: string): seq<Tick> {
    if ticks == [] then []
    else OfSymbol(Init(ticks), symbol) + if Last(ticks).symbol == symbol then [Last(ticks)] else []
  }

  /** The part of a log that one (symbol, timeframe) published. */
  function Published(log: seq<Candle>, symbol: string, tf: Timeframe): seq<Candle> {
    if log == [] then []
    else Published(Init(log), symbol, tf)
         + if Last(log).symbol == symbol && Last(log).timeframe == tf then [Last(log)] else []
  }

  ghost predicate Tagged(e: BuilderState) {
    forall s, tf :: IsSymbol(s) && Key(s, tf) in e.store ==>
      e.store[Key(s, tf)].current.symbol == s && e.store[Key(s, tf)].current.timeframe == tf
  }

  /** The pair (t.symbol, tf) has taken exactly one step on t. */
  predicate Advanced(e: BuilderState, e': BuilderState, t: Tick, tf: Timeframe) {
    var step := StepTrack(Lookup(e.store, t.symbol, tf), t, tf);
    Lookup(e'.store, t.symbol, tf) == Some(step.0)
    && Published(e'.log, t.symbol, tf) == Published(e.log, t.symbol, tf) + step.1
  }

  predicate Untouched(e: BuilderState, e': BuilderState, s: string, tf: Timeframe) {
    Lookup(e'.store, s, tf) == Lookup(e.store, s, tf) && Published(e'.log, s, tf) == Published(e.log, s, tf)
  }

  lemma RankIsPosition(tf: Timeframe, n: nat)
    requires n < |ALL|
    ensures ALL[n] == tf <==> tf.Rank() == n
  {
  }

  lemma ProcessTimeframeEffect(e: BuilderState, t: Tick, tf: Timeframe, s: string, tf': Timeframe)
    requires IsSymbol(t.symbol) && IsSymbol(s) && Tagged(e)
    ensures Tagged(ProcessTimeframe(e, t, tf))
    ensures if s == t.symbol && tf' == tf then Advanced(e, ProcessTimeframe(e, t, tf), t, tf')
            else Untouched(e, ProcessTimeframe(e, t, tf), s, tf')
  {
    var e' := ProcessTimeframe(e, t, tf);
    forall s, tf' | IsSymbol(s) && Key(s, tf') in e'.store
      ensures e'.store[Key(s, tf')].current.symbol == s && e'.store[Key(s, tf')].current.timeframe == tf'
    {
      KeyIsInjective(s, tf', t.symbol, tf);
    }
    KeyIsInjective(s, tf', t.symbol, tf);
    var out := StepTrack(Lookup(e.store, t.symbol, tf), t, tf).1;
    if out != [] {
      assert Init(e'.log) == e.log && Last(e'.log) == out[0];
    } else {
      assert e'.log == e.log;
    }
  }

  lemma {:induction false} ExecuteSomeEffect(e: BuilderState, t: Tick, n: nat, s: string, tf: Timeframe)
    requires n <= |ALL| && IsSymbol(t.symbol) && IsSymbol(s) && Tagged(e)
    ensures Tagged(ExecuteSome(e, t, n))
    ensures if s == t.symbol && tf.Rank() < n then Advanced(e, ExecuteSome(e, t, n), t, tf)
            else Untouched(e, ExecuteSome(e, t, n), s, tf)
  {
    if n > 0 {
      ExecuteSomeEffect(e, t, n - 1, s, tf);
      ProcessTimeframeEffect(ExecuteSome(e, t, n - 1), t, ALL[n - 1], s, tf);
      RankIsPosition(tf, n - 1);
    }
  }

  /** Each (symbol, timeframe) of the whole builder evolves as if it were alone. */
  lemma {:induction false} RunProjects(ticks: seq<Tick>, s: string, tf: Timeframe)
    requires IsSymbol(s) && forall t :: t in ticks ==> IsSymbol(t.symbol)
    ensures Tagged(Run(ticks))
    ensures Track(Lookup(Run(ticks).store, s, tf), Published(Run(ticks).log, s, tf)) == TrackOf(OfSymbol(ticks, s), tf)
  {
    if ticks == [] {
    } else {
      var t := Last(ticks);
      RunProjects(Init(ticks), s, tf);
      ExecuteSomeEffect(Run(Init(ticks)), t, |ALL|, s, tf);
      var mine := OfSymbol(Init(ticks), s);
      if t.symbol == s {
        assert Init(mine + [t]) == mine && Last(mine + [t]) == t;
      } else {
        assert OfSymbol(ticks, s) == mine;
      }
    }
  }

  /** A publish that throws at timeframe n: timeframes up to n have folded the tick in, coarser ones have
      not, and only those finer than n have published. */
  lemma FailedPublishSkipsCoarserTimeframes(e: BuilderState, t: Tick, n: nat, tf: Timeframe)
    requires n < |ALL| && IsSymbol(t.symbol) && Tagged(e)
    ensures var e' := FailedPublish(e, t, n); var step := StepTrack(Lookup(e.store, t.symbol, tf), t, tf);
      && Lookup(e'.store, t.symbol, tf) == (if tf.Rank() <= n then Some(step.0) else Lookup(e.store, t.symbol, tf))
      && Published(e'.log, t.symbol, tf)
        == (if tf.Rank() < n then Published(e.log, t.symbol, tf) + step.1 else Published(e.log, t.symbol, tf))
  {
    ExecuteSomeEffect(e, t, n, t.symbol, tf);
    ExecuteSomeEffect(e, t, n + 1, t.symbol, tf);
  }

  // ---------- Runs in which publishes fail ----------

  /** A tick, and the timeframe at which its publish throws, if any does. */
  datatype Delivery = Delivery(tick: Tick, failsAt: Option<nat>)
  {
    predicate Valid() {
      IsSymbol(tick.symbol) && (failsAt.Some? ==> failsAt.value < |ALL|)
    }

    /** The tick is folded into this timeframe of its symbol. */
    predicate Reaches(tf: Timeframe) {
      failsAt.None? || tf.Rank() <= failsAt.value
    }

    /** What this timeframe completes on it is published. */
    predicate Publishes(tf: Timeframe) {
      failsAt.None? || tf.Rank() < failsAt.value
    }
  }

  predicate AllValid(ds: seq<Delivery>) {
    forall k :: 0 <= k < |ds| ==> ds[k].Valid()
  }

  function RunWith(ds: seq<Delivery>): BuilderState
    requires AllValid(ds)
  {
    if ds == [] then BuilderState(map[], [])
    else
      var e, d := RunWith(Init(ds)), Last(ds);
      if d.failsAt.None? then ExecuteTick(e, d.tick) else FailedPublish(e, d.tick, d.failsAt.value)
  }

  /** The ticks of a symbol that reached a timeframe. */
  function Reached(ds: seq<Delivery>, symbol: string, tf: Timeframe): seq<Tick> {
    if ds == [] then []
    else Reached(Init(ds), symbol, tf)
         + if Last(ds).tick.symbol == symbol && Last(ds).Reaches(tf) then [Last(ds).tick] else []
  }

  /** The candles that a timeframe completed and published. */
  function Delivered(ds: seq<Delivery>, symbol: string, tf: Timeframe): seq<Candle> {
    if ds == [] then []
    else
      var d := Last(ds);
      Delivered(Init(ds), symbol, tf)
      + if d.tick.symbol == symbol && d.Publishes(tf)
        then StepTrack(TrackOf(Reached(Init(ds), symbol, tf), tf).state, d.tick, tf).1 else []
  }

  lemma DeliveryEffect(e: BuilderState, d: Delivery, s: string, tf: Timeframe)
    requires d.Valid() && IsSymbol(s) && Tagged(e)
    ensures var e' := if d.failsAt.None? then ExecuteTick(e, d.tick) else FailedPublish(e, d.tick, d.failsAt.value);
      var step := StepTrack(Lookup(e.store, s, tf), d.tick, tf);
      Tagged(e')
      && Lookup(e'.store, s, tf)
        == (if d.tick.symbol == s && d.Reaches(tf) then Some(step.0) else Lookup(e.store, s, tf))
      && Published(e'.log, s, tf)
        == (if d.tick.symbol == s && d.Publishes(tf) then Published(e.log, s, tf) + step.1 else Published(e.log, s, tf))
  {
    if d.failsAt.None? {
      ExecuteSomeEffect(e, d.tick, |ALL|, s, tf);
    } else {
      ExecuteSomeEffect(e, d.tick, d.failsAt.value, s, tf);
      ExecuteSomeEffect(e, d.tick, d.failsAt.value + 1, s, tf);
    }
    hide StepTrack;
    hide ExecuteSome;
  }

  /** In every run, whichever publishes fail, each symbol and timeframe is where the ticks that reached it take it,
      and the log holds what it completed on ticks whose publish succeeded. */
  lemma {:induction false} RunWithProjects(ds: seq<Delivery>, s: string, tf: Timeframe)
    requires AllValid(ds) && IsSymbol(s)
    ensures Tagged(RunWith(ds))
    ensures Lookup(RunWith(ds).store, s, tf) == TrackOf(Reached(ds, s, tf), tf).state
    ensures Published(RunWith(ds).log, s, tf) == Delivered(ds, s, tf)
  {
    if ds != [] {
      hide StepTrack;
      hide ExecuteTick;
      hide FailedPublish;
      RunWithProjects(Init(ds), s, tf);
      DeliveryEffect(RunWith(Init(ds)), Last(ds), s, tf);
      ReachedNext(ds, s, tf);
      hide TrackOf;
      hide Tagged;
      hide Lookup;
      hide Published;
    }
  }

  lemma ReachedNext(ds: seq<Delivery>, s: string, tf: Timeframe)
    requires ds != []
    ensures var before, t := TrackOf(Reached(Init(ds), s, tf), tf), Last(ds).tick;
      TrackOf(Reached(ds, s, tf), tf).state
      == if t.symbol == s && Last(ds).Reaches(tf) then Some(StepTrack(before.state, t, tf).0) else before.state
  {
    hide StepTrack;
    var mine, t := Reached(Init(ds), s, tf), Last(ds).tick;
    assert Init(mine + [t]) == mine && Last(mine + [t]) == t;
    assert mine + [] == mine;
  }
}
