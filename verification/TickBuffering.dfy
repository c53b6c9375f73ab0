/** Publish-or-buffer ingestion, the bounded FIFO buffer, and the flush that drains it. */
module TickBuffering {
  import opened Common
  import opened MarketData

  /** How many of the oldest ticks give way when one more is pushed. */
  function Excess(items: seq<Tick>, max: nat): (n: nat)
    ensures n <= |items| + 1 && |items| + 1 - n <= max && (n > 0 ==> |items| + 1 - n == max)
  {
    if |items| < max then 0 else |items| + 1 - max
  }

  /** What a buffer of capacity max holds after t is pushed. */
  function Pushed(items: seq<Tick>, t: Tick, max: nat): seq<Tick> {
    (items + [t])[Excess(items, max)..]
  }

  class InMemoryTickBuffer {
    const max: nat
    var items: seq<Tick>

    ghost predicate Valid()
      reads this
    {
      max > 0 && |items| <= max
    }

    /** A capacity of zero throws in the source. */
    constructor (max: nat)
      requires max > 0
      ensures Valid() && this.max == max && items == []
    {
      this.max := max;
      items := [];
    }

    method Push(t: Tick)
      requires Valid()
      modifies this
      ensures Valid() && items == Pushed(old(items), t, max)
    {
      ghost var all, dropped := items + [t], 0;
      items := items + [t];
      while |items| > max
        invariant dropped <= Excess(old(items), max) && items == all[dropped..]
      {
        items := items[1..];
        dropped := dropped + 1;
      }
    }

    method Drain() returns (out: seq<Tick>)
      requires Valid()
      modifies this
      ensures Valid() && out == old(items) && items == []
    {
      out := items;
      items := [];
    }
  }

  /** The broker: publish attempt number i succeeds iff `accepts(i)`. */
  class MessageBus {
    const accepts: nat -> bool
    var attempts: nat
    var log: seq<Tick>

    constructor (accepts: nat -> bool)
      ensures this.accepts == accepts && attempts == 0 && log == []
    {
      this.accepts := accepts;
      attempts, log := 0, [];
    }

    method Publish(t: Tick) returns (ok: bool)
      modifies this
      ensures ok == accepts(old(attempts)) && attempts == old(attempts) + 1
      ensures log == if ok then old(log) + [t] else old(log)
    {
      ok := accepts(attempts);
      attempts := attempts + 1;
      if ok {
        log := log + [t];
      }
    }
  }

  class IngestTickUseCase {
    const bus: MessageBus
    const buffer: InMemoryTickBuffer

    constructor (bus: MessageBus, buffer: InMemoryTickBuffer)
      ensures this.bus == bus && this.buffer == buffer
    {
      this.bus := bus;
      this.buffer := buffer;
    }

    /** The tick ends up on the bus or in the buffer, never both. */
    method Execute(t: Tick) returns (published: bool, buffered: bool)
      requires buffer.Valid()
      modifies bus, buffer
      ensures buffer.Valid() && published == bus.accepts(old(bus.attempts)) && buffered == !published
      ensures bus.log == if published then old(bus.log) + [t] else old(bus.log)
      ensures buffer.items == if published then old(buffer.items) else Pushed(old(buffer.items), t, buffer.max)
    {
      published := bus.Publish(t);
      buffered := false;
      if !published {
        buffer.Push(t);
        buffered := true;
      }
    }
  }

  /** A stream name cannot be built from an empty prefix or one that lacks the final colon. */
  predicate IsStreamPrefix(prefix: string) {
    prefix != "" && Last(prefix) == ':'
  }

  /** The n attempts from number `first` on all succeed. */
  ghost predicate Accepted(accepts: nat -> bool, first: nat, n: nat) {
    forall i: nat :: first <= i < first + n ==> accepts(i)
  }

  lemma RePushed(ticks: seq<Tick>, from: nat, i: nat, max: nat)
    requires from <= i < |ticks| <= max
    ensures Pushed(ticks[from..i], ticks[i], max) == ticks[from..i + 1]
  {
    assert ticks[from..i] + [ticks[i]] == ticks[from..i + 1];
  }

  class FlushBufferUseCase {
    const bus: MessageBus
    const buffer: InMemoryTickBuffer
    const streamPrefix: string

    constructor (bus: MessageBus, buffer: InMemoryTickBuffer, streamPrefix: string)
      ensures this.bus == bus && this.buffer == buffer && this.streamPrefix == streamPrefix
    {
      this.bus := bus;
      this.buffer := buffer;
      this.streamPrefix := streamPrefix;
    }

    /** With nothing else running, a flush publishes a prefix of the buffer, up to the first refusal, and
        leaves exactly the rest in order. */
    method Execute() returns (drained: nat, published: nat, reBuffered: nat)
      requires buffer.Valid()
      modifies bus, buffer
      ensures buffer.Valid() && drained == |old(buffer.items)| == published + reBuffered
      ensures bus.log == old(bus.log) + old(buffer.items)[..published]
      ensures buffer.items == old(buffer.items)[published..]
      ensures !IsStreamPrefix(streamPrefix) ==> published == 0
      ensures IsStreamPrefix(streamPrefix) ==>
        Accepted(bus.accepts, old(bus.attempts), published)
        && (published < drained ==> !bus.accepts(old(bus.attempts) + published))
    {
      var ticks := buffer.Drain();
      published, reBuffered := 0, 0;
      var failed := false;
      for i := 0 to |ticks|
        invariant buffer.Valid() && i == published + reBuffered && (failed <==> reBuffered > 0)
        invariant bus.log == old(bus.log) + ticks[..published]
        invariant buffer.items == ticks[published..i]
        invariant published > 0 ==> IsStreamPrefix(streamPrefix)
        invariant !failed ==> bus.attempts == old(bus.attempts) + published
        invariant Accepted(bus.accepts, old(bus.attempts), published)
        invariant IsStreamPrefix(streamPrefix) && failed ==> !bus.accepts(old(bus.attempts) + published)
      {
        var t := ticks[i];
        RePushed(ticks, published, i, buffer.max);
        if failed {
          buffer.Push(t);
          reBuffered := reBuffered + 1;
        } else {
          var ok := false;
          if IsStreamPrefix(streamPrefix) {
            ok := bus.Publish(t);
          }
          if ok {
            published := published + 1;
            assert ticks[..published] == ticks[..published - 1] + [t];
          } else {
            failed := true;
            buffer.Push(t);
            reBuffered := reBuffered + 1;
          }
        }
      }
      drained := |ticks|;
    }
  }
}

/** The same protocol as steps: any number of ingests and flushes, interleaved at their awaits. */
module IngestProtocol {
  import opened Common
  import opened MarketData
  import opened TickBuffering

  /** An ingest waits for the broker's answer; a flush waits at tick number `next` of what it drained. */
  datatype Task =
    | Ingest(tick: Tick)
    | IngestDone
    | Flush(ticks: seq<Tick>, next: nat, failed: bool, published: nat, reBuffered: nat)

  datatype State = State(arrived: seq<Tick>, bus: seq<Tick>, buffer: seq<Tick>, evicted: seq<Tick>, tasks: seq<Task>)

  datatype Event =
    | Arrive(tick: Tick)
    | StartFlush
    | Resume(task: nat, accepted: bool)  // the broker's answer, ignored by a flush that has failed

  const START := State([], [], [], [], [])

  function Push(s: State, t: Tick, max: nat): State {
    s.(buffer := Pushed(s.buffer, t, max), evicted := s.evicted + (s.buffer + [t])[..Excess(s.buffer, max)])
  }

  predicate CanResume(task: Task) {
    task.Ingest? || (task.Flush? && task.next < |task.ticks|)
  }

  /** An answer for a task that is not waiting changes nothing. */
  function Step(s: State, e: Event, max: nat): State {
    match e
    case Arrive(t) => s.(arrived := s.arrived + [t], tasks := s.tasks + [Ingest(t)])
    case StartFlush => s.(buffer := [], tasks := s.tasks + [Flush(s.buffer, 0, false, 0, 0)])
    case Resume(id, accepted) =>
      if id < |s.tasks| && CanResume(s.tasks[id]) then Answer(s, id, accepted, max) else s
  }

  function Answer(s: State, id: nat, accepted: bool, max: nat): State
    requires id < |s.tasks| && CanResume(s.tasks[id])
  {
    var (t, task, published) := Advance(s.tasks[id], accepted);
    var s' := s.(tasks := s.tasks[id := task]);
    if published then s'.(bus := s.bus + [t]) else Push(s', t, max)
  }

  /** The tick a task was waiting on, the task afterwards, and whether the tick went to the bus. */
  function Advance(task: Task, accepted: bool): (Tick, Task, bool)
    requires CanResume(task)
  {
    match task
    case Ingest(t) => (t, IngestDone, accepted)
    case Flush(ticks, next, failed, published, reBuffered) =>
      if !failed && accepted then (ticks[next], Flush(ticks, next + 1, false, published + 1, reBuffered), true)
      else (ticks[next], Flush(ticks, next + 1, true, published, reBuffered + 1), false)
  }

  /** The state after any sequence of arrivals, flush starts and broker answers. */
  function After(es: seq<Event>, max: nat): State {
    if es == [] then START else Step(After(Init(es), max), Last(es), max)
  }

  // ---------- Conservation ----------

  function PendingOf(task: Task): multiset<Tick> {
    match task
    case Ingest(t) => multiset{t}
    case IngestDone => multiset{}
    case Flush(ticks, next, _, _, _) => if next <= |ticks| then multiset(ticks[next..]) else multiset{}
  }

  function Pending(tasks: seq<Task>): multiset<Tick> {
    if tasks == [] then multiset{} else Pending(Init(tasks)) + PendingOf(Last(tasks))
  }

  /** A flush has published a prefix of what it drained, up to its first refusal, and re-buffered the rest so far. */
  ghost predicate FlushRight(task: Task) {
    task.Flush? ==>
      task.next == task.published + task.reBuffered <= |task.ticks| && (task.failed <==> task.reBuffered > 0)
  }

  ghost predicate FlushesRight(tasks: seq<Task>) {
    forall i :: 0 <= i < |tasks| ==> FlushRight(tasks[i])
  }

  ghost predicate Conserved(s: State) {
    multiset(s.arrived) == multiset(s.bus) + multiset(s.buffer) + multiset(s.evicted) + Pending(s.tasks)
  }

  lemma PendingOfAppend(tasks: seq<Task>, task: Task)
    ensures Pending(tasks + [task]) == Pending(tasks) + PendingOf(task)
  {
    assert Init(tasks + [task]) == tasks;
  }

  lemma {:induction false} PendingOfUpdate(tasks: seq<Task>, id: nat, task: Task)
    requires id < |tasks|
    ensures Pending(tasks[id := task]) + PendingOf(tasks[id]) == Pending(tasks) + PendingOf(task)
  {
    if id == |tasks| - 1 {
      assert Init(tasks[id := task]) == Init(tasks);
      Swap(Pending(Init(tasks)), Pending(Init(tasks)), PendingOf(task), PendingOf(task), PendingOf(tasks[id]));
    } else {
      PendingOfUpdate(Init(tasks), id, task);
      assert Init(tasks[id := task]) == Init(tasks)[id := task];
      Swap(Pending(Init(tasks)[id := task]), Pending(Init(tasks)), PendingOf(tasks[id]), PendingOf(task),
           PendingOf(Last(tasks)));
    }
  }

  lemma Swap(a: multiset<Tick>, b: multiset<Tick>, p: multiset<Tick>, q: multiset<Tick>, l: multiset<Tick>)
    requires a + p == b + q
    ensures a + l + p == b + l + q && a + p + l == b + l + q
  {
    forall t
      ensures (a + l + p)[t] == (b + l + q)[t] && (a + p + l)[t] == (b + l + q)[t]
    {
      assert (a + p)[t] == (b + q)[t];
    }
  }

  lemma Rotate(a: multiset<Tick>, b: multiset<Tick>, c: multiset<Tick>, d: multiset<Tick>, e: multiset<Tick>)
    requires a + b == c + d
    ensures b + (e + a) == c + e + d
  {
    forall x: Tick
      ensures (b + (e + a))[x] == (c + e + d)[x]
    {
      assert (a + b)[x] == (c + d)[x];
    }
  }

  lemma PushConserves(s: State, t: Tick, max: nat)
    ensures multiset(Push(s, t, max).buffer) + multiset(Push(s, t, max).evicted)
         == multiset(s.buffer) + multiset(s.evicted) + multiset{t}
  {
    var all, n := s.buffer + [t], Excess(s.buffer, max);
    assert all == all[..n] + all[n..];
    assert multiset(all) == multiset(s.buffer) + multiset{t} == multiset(all[..n]) + multiset(all[n..]);
    Rotate(multiset(all[..n]), multiset(all[n..]), multiset(s.buffer), multiset{t}, multiset(s.evicted));
  }

  lemma AdvanceTakesOne(task: Task, accepted: bool)
    requires CanResume(task)
    ensures var (t, task', _) := Advance(task, accepted);
      PendingOf(task) == PendingOf(task') + multiset{t}
  {
    if task.Flush? {
      assert task.ticks[task.next..] == [task.ticks[task.next]] + task.ticks[task.next + 1..];
    }
  }

  lemma AnswerConserves(s: State, id: nat, accepted: bool, max: nat)
    requires Conserved(s) && id < |s.tasks| && CanResume(s.tasks[id])
    ensures Conserved(Answer(s, id, accepted, max))
  {
    var (t, task, published) := Advance(s.tasks[id], accepted);
    var s' := Answer(s, id, accepted, max);
    PendingOfUpdate(s.tasks, id, task);
    AdvanceTakesOne(s.tasks[id], accepted);
    PushConserves(s.(tasks := s.tasks[id := task]), t, max);
    Rebalance(multiset(s.bus), multiset(s.buffer), multiset(s.evicted), Pending(s.tasks), PendingOf(task),
              Pending(s'.tasks),
              multiset{t}, multiset(s'.bus), multiset(s'.buffer), multiset(s'.evicted));
  }

  lemma Rebalance(b: multiset<Tick>, f: multiset<Tick>, e: multiset<Tick>, p: multiset<Tick>, rest: multiset<Tick>,
                  p': multiset<Tick>,
                  t: multiset<Tick>, b': multiset<Tick>, f': multiset<Tick>, e': multiset<Tick>)
    requires p' + (rest + t) == p + rest
    requires (b' == b + t && f' == f && e' == e) || (b' == b && f' + e' == f + e + t)
    ensures b + f + e + p == b' + f' + e' + p'
  {
    forall x: Tick
      ensures (b + f + e + p)[x] == (b' + f' + e' + p')[x]
    {
      assert (p' + (rest + t))[x] == (p + rest)[x];
      assert (f' + e')[x] == f'[x] + e'[x] && (f + e + t)[x] == f[x] + e[x] + t[x];
    }
  }

  lemma ArrivalConserves(s: State, t: Tick, max: nat)
    requires Conserved(s)
    ensures Conserved(Step(s, Arrive(t), max))
  {
    PendingOfAppend(s.tasks, Ingest(t));
    assert multiset(s.arrived + [t]) == multiset(s.arrived) + multiset{t};
  }

  lemma StartOfFlushConserves(s: State, max: nat)
    requires Conserved(s)
    ensures Conserved(Step(s, StartFlush, max))
  {
    PendingOfAppend(s.tasks, Flush(s.buffer, 0, false, 0, 0));
    assert s.buffer[0..] == s.buffer;
  }

  /** Over every interleaving, every tick that has arrived is on the bus, in the buffer, evicted or in
      flight, as many times as it arrived; the buffer respects its capacity and every flush its report. */
  lemma {:induction false} EveryTickIsAccountedFor(es: seq<Event>, max: nat)
    ensures Conserved(After(es, max)) && |After(es, max).buffer| <= max
    ensures FlushesRight(After(es, max).tasks)
  {
    if es != [] {
      EveryTickIsAccountedFor(Init(es), max);
      var s := After(Init(es), max);
      FlushesStayRight(s, Last(es), max);
      StepConserves(s, Last(es), max);
    }
  }

  lemma StepConserves(s: State, e: Event, max: nat)
    requires Conserved(s) && |s.buffer| <= max
    ensures Conserved(Step(s, e, max)) && |Step(s, e, max).buffer| <= max
  {
    BufferStaysBounded(s, e, max);
    hide Conserved;
    hide Pending;
    match e
    case Arrive(t) =>
      ArrivalConserves(s, t, max);
    case StartFlush =>
      StartOfFlushConserves(s, max);
    case Resume(id, accepted) =>
      if id < |s.tasks| && CanResume(s.tasks[id]) {
        AnswerConserves(s, id, accepted, max);
      }
  }

  lemma BufferStaysBounded(s: State, e: Event, max: nat)
    requires |s.buffer| <= max
    ensures |Step(s, e, max).buffer| <= max
  {
  }

  lemma FlushesStayRight(s: State, e: Event, max: nat)
    requires FlushesRight(s.tasks)
    ensures FlushesRight(Step(s, e, max).tasks)
  {
    if e.Resume? && e.task < |s.tasks| && CanResume(s.tasks[e.task]) {
      assert FlushRight(s.tasks[e.task]);
      assert FlushRight(Advance(s.tasks[e.task], e.accepted).1);
    }
  }

  /** When the arrivals are distinct, each is in exactly one place. */
  lemma EachTickIsInOnePlace(es: seq<Event>, max: nat, t: Tick)
    requires multiset(After(es, max).arrived)[t] == 1
    ensures var s := After(es, max);
      multiset(s.bus)[t] + multiset(s.buffer)[t] + multiset(s.evicted)[t] + Pending(s.tasks)[t] == 1
  {
    EveryTickIsAccountedFor(es, max);
    var s := After(es, max);
    assert multiset(s.arrived)[t] == (multiset(s.bus) + multiset(s.buffer) + multiset(s.evicted) + Pending(s.tasks))[t];
  }

  /** No tick is ever lost in a run that never has more than `max` arrivals unpublished. */
  lemma {:induction false} NothingIsLostWithinCapacity(es: seq<Event>, max: nat)
    requires forall k :: 0 <= k <= |es| ==> Unpublished(es[..k], max) <= max
    ensures After(es, max).evicted == []
  {
    if es != [] {
      forall k | 0 <= k <= |Init(es)|
        ensures Unpublished(Init(es)[..k], max) <= max
      {
        assert Init(es)[..k] == es[..k];
      }
      NothingIsLostWithinCapacity(Init(es), max);
      var s := After(Init(es), max);
      assert Init(es) == es[..|es| - 1];
      EveryTickIsAccountedFor(Init(es), max);
      CountsAddUp(s);
      if Last(es).Resume? && Last(es).task < |s.tasks| && CanResume(s.tasks[Last(es).task]) {
        PendingIncludes(s.tasks, Last(es).task);
        AdvanceTakesOne(s.tasks[Last(es).task], Last(es).accepted);
      }
    }
  }

  function Unpublished(es: seq<Event>, max: nat): int {
    |After(es, max).arrived| - |After(es, max).bus|
  }

  lemma CountsAddUp(s: State)
    requires Conserved(s)
    ensures |s.arrived| == |s.bus| + |s.buffer| + |s.evicted| + |Pending(s.tasks)|
  {
    assert |multiset(s.arrived)| == |multiset(s.bus) + multiset(s.buffer) + multiset(s.evicted) + Pending(s.tasks)|;
  }

  lemma {:induction false} PendingIncludes(tasks: seq<Task>, id: nat)
    requires id < |tasks|
    ensures |PendingOf(tasks[id])| <= |Pending(tasks)|
  {
    if id < |tasks| - 1 {
      PendingIncludes(Init(tasks), id);
    }
  }

  // ---------- One flush on its own ----------

  /** The state after further events. */
  function Continued(s: State, es: seq<Event>, max: nat): State {
    if es == [] then s else Step(Continued(s, Init(es), max), Last(es), max)
  }

  /** The broker's answers to the flush that is task `id`. */
  function Resumes(id: nat, answers: seq<bool>): (es: seq<Event>)
    ensures |es| == |answers|
  {
    if answers == [] then [] else Resumes(id, Init(answers)) + [Resume(id, Last(answers))]
  }

  /** The number of answers before the first refusal. */
  function Prefix(answers: seq<bool>): (p: nat)
    ensures p <= |answers| && (forall i :: 0 <= i < p ==> answers[i]) && (p < |answers| ==> !answers[p])
  {
    if answers == [] || !answers[0] then 0 else 1 + Prefix(answers[1..])
  }

  /** A flush of s.buffer that has reached tick m, p of them published. */
  function Flushing(s: State, p: nat, m: nat): State
    requires p <= m <= |s.buffer|
  {
    s.(bus := s.bus + s.buffer[..p], buffer := s.buffer[p..m], tasks := s.tasks + [Flush(s.buffer, m, p < m, p, m - p)])
  }

  /** With nothing in between, the steps of a flush do what FlushBufferUseCase.Execute does: the ticks before the first
      refusal go to the bus, exactly the rest stays in order, nothing is evicted, and the counts are right. */
  lemma {:induction false} UninterruptedFlush(s: State, answers: seq<bool>, m: nat, max: nat)
    requires |answers| == |s.buffer| <= max && m <= |answers|
    ensures Continued(Step(s, StartFlush, max), Resumes(|s.tasks|, answers[..m]), max)
      == Flushing(s, Min(Prefix(answers), m), m)
  {
    hide Step;
    hide Flushing;
    hide Prefix;
    if m == 0 {
      assert answers[..0] == [];
      FlushBegins(s, max);
    } else {
      UninterruptedFlush(s, answers, m - 1, max);
      ResumesNext(|s.tasks|, answers, m);
      FlushStep(s, Min(Prefix(answers), m - 1), m - 1, answers[m - 1], max);
      hide Resumes;
    }
  }

  lemma FlushBegins(s: State, max: nat)
    ensures Step(s, StartFlush, max) == Flushing(s, 0, 0)
  {
    assert s.bus + s.buffer[..0] == s.bus && s.buffer[0..0] == [];
  }

  lemma ResumesNext(id: nat, answers: seq<bool>, m: nat)
    requires 0 < m <= |answers|
    ensures var es := Resumes(id, answers[..m]);
      Init(es) == Resumes(id, answers[..m - 1]) && Last(es) == Resume(id, answers[m - 1])
  {
    assert Init(answers[..m]) == answers[..m - 1] && Last(answers[..m]) == answers[m - 1];
  }

  lemma FlushStep(s: State, p: nat, m: nat, accepted: bool, max: nat)
    requires p <= m < |s.buffer| <= max
    ensures Step(Flushing(s, p, m), Resume(|s.tasks|, accepted), max)
         == Flushing(s, if p == m && accepted then p + 1 else p, m + 1)
  {
    var t := s.buffer[m];
    RePushed(s.buffer, p, m, max);
    assert s.bus + s.buffer[..m] + [t] == s.bus + s.buffer[..m + 1];
    assert s.evicted + (s.buffer[p..m] + [t])[..0] == s.evicted;
    assert s.buffer[m + 1..m + 1] == s.buffer[m..m];
    var flush := Flush(s.buffer, m, p < m, p, m - p);
    assert (s.tasks + [flush])[|s.tasks|] == flush;
    forall next: Task
      ensures (s.tasks + [flush])[|s.tasks| := next] == s.tasks + [next]
    {
    }
  }

  // ---------- The order of arrival ----------

  predicate Distinct(arrived: seq<Tick>) {
    forall i, j :: 0 <= i < j < |arrived| ==> arrived[i] != arrived[j]
  }

  ghost predicate ArrivedBefore(arrived: seq<Tick>, t: Tick, u: Tick) {
    exists i, j :: 0 <= i < j < |arrived| && arrived[i] == t && arrived[j] == u
  }

  /** The bus carries ticks in the order in which they arrived. */
  ghost predicate InOrder(bus: seq<Tick>, arrived: seq<Tick>) {
    forall i, j :: 0 <= i < j < |bus| ==> ArrivedBefore(arrived, bus[i], bus[j])
  }

  /** Ticks that have arrived and may still be published. */
  function Waiting(s: State): multiset<Tick> {
    multiset(s.buffer) + Pending(s.tasks)
  }

  predicate Publishes(s: State, e: Event) {
    e.Resume? && e.task < |s.tasks| && CanResume(s.tasks[e.task]) && Advance(s.tasks[e.task], e.accepted).2
  }

  function TickOf(s: State, e: Event): Tick
    requires Publishes(s, e)
  {
    Advance(s.tasks[e.task], e.accepted).0
  }

  /** The event publishes a tick while one that arrived earlier is still buffered or in flight. */
  ghost predicate Overtakes(s: State, e: Event) {
    Publishes(s, e) && exists u :: u in Waiting(s) && ArrivedBefore(s.arrived, u, TickOf(s, e))
  }

  ghost predicate NeverOvertakes(es: seq<Event>, max: nat) {
    forall k :: 0 <= k < |es| ==> !Overtakes(After(es[..k], max), es[k])
  }

  /** Every tick on the bus arrived before every tick that still waits. */
  ghost predicate BusFirst(s: State) {
    forall b, u :: b in s.bus && u in Waiting(s) ==> ArrivedBefore(s.arrived, b, u)
  }

  lemma DistinctCounts(arrived: seq<Tick>, t: Tick)
    requires Distinct(arrived)
    ensures multiset(arrived)[t] == if t in arrived then 1 else 0
    decreases |arrived|
  {
    if arrived != [] {
      assert arrived == Init(arrived) + [Last(arrived)];
      DistinctCounts(Init(arrived), t);
    }
  }

  /** With distinct arrivals a tick is on the bus or waits, not both. */
  lemma OnePlace(s: State, t: Tick)
    requires Conserved(s) && Distinct(s.arrived)
    ensures t in s.bus || t in Waiting(s) ==> t in s.arrived
    ensures multiset(s.bus)[t] + Waiting(s)[t] + multiset(s.evicted)[t] <= 1
  {
    DistinctCounts(s.arrived, t);
    assert multiset(s.arrived)[t] == (multiset(s.bus) + multiset(s.buffer) + multiset(s.evicted) + Pending(s.tasks))[t];
    assert multiset(s.arrived)[t]
      == multiset(s.bus)[t] + multiset(s.buffer)[t] + multiset(s.evicted)[t] + Pending(s.tasks)[t];
    assert t in s.bus <==> multiset(s.bus)[t] > 0;
  }

  lemma BeforeOrAfter(arrived: seq<Tick>, t: Tick, u: Tick)
    requires t in arrived && u in arrived && t != u
    ensures ArrivedBefore(arrived, t, u) || ArrivedBefore(arrived, u, t)
  {
    var i :| 0 <= i < |arrived| && arrived[i] == t;
    var j :| 0 <= j < |arrived| && arrived[j] == u;
    assert i < j || j < i;
  }

  lemma NotBothWays(arrived: seq<Tick>, t: Tick, u: Tick)
    requires Distinct(arrived) && ArrivedBefore(arrived, t, u)
    ensures !ArrivedBefore(arrived, u, t)
  {
  }

  lemma ArrivalKeepsOrder(arrived: seq<Tick>, next: Tick, t: Tick, u: Tick)
    requires ArrivedBefore(arrived, t, u)
    ensures ArrivedBefore(arrived + [next], t, u)
  {
    var i, j :| 0 <= i < j < |arrived| && arrived[i] == t && arrived[j] == u;
    assert (arrived + [next])[i] == t && (arrived + [next])[j] == u;
  }

  lemma ArrivedBeforeLast(arrived: seq<Tick>, t: Tick, next: Tick)
    requires t in arrived
    ensures ArrivedBefore(arrived + [next], t, next)
  {
    var i :| 0 <= i < |arrived| && arrived[i] == t;
    assert (arrived + [next])[i] == t && (arrived + [next])[|arrived|] == next;
  }

  lemma ArriveKeepsBusFirst(s: State, t: Tick, max: nat)
    requires Conserved(s) && Distinct(s.arrived) && InOrder(s.bus, s.arrived) && BusFirst(s)
    ensures InOrder(s.bus, s.arrived + [t]) && BusFirst(Step(s, Arrive(t), max))
  {
    PendingOfAppend(s.tasks, Ingest(t));
    var s' := Step(s, Arrive(t), max);
    forall i, j | 0 <= i < j < |s.bus|
      ensures ArrivedBefore(s.arrived + [t], s.bus[i], s.bus[j])
    {
      ArrivalKeepsOrder(s.arrived, t, s.bus[i], s.bus[j]);
    }
    forall b, u | b in s'.bus && u in Waiting(s')
      ensures ArrivedBefore(s'.arrived, b, u)
    {
      if u in Waiting(s) {
        ArrivalKeepsOrder(s.arrived, t, b, u);
      } else {
        OnePlace(s, b);
        ArrivedBeforeLast(s.arrived, b, t);
      }
    }
  }

  /** An answer moves one tick that waited to the bus, or leaves only ticks waiting that waited before. */
  lemma AnswerMovesOne(s: State, id: nat, accepted: bool, max: nat)
    requires id < |s.tasks| && CanResume(s.tasks[id])
    ensures var (t, task, published) := Advance(s.tasks[id], accepted); var s' := Answer(s, id, accepted, max);
      t in Waiting(s)
      && (if published then s'.bus == s.bus + [t] && Waiting(s) == Waiting(s') + multiset{t}
          else s'.bus == s.bus && forall u :: u in Waiting(s') ==> u in Waiting(s))
  {
    var (t, task, published) := Advance(s.tasks[id], accepted);
    PendingOfUpdate(s.tasks, id, task);
    AdvanceTakesOne(s.tasks[id], accepted);
    TakeOne(Pending(s.tasks), Pending(s.tasks[id := task]), PendingOf(task), t);
    PushedComesFrom(s.buffer, t, max);
    WaitingMoves(s.buffer, Answer(s, id, accepted, max).buffer, Pending(s.tasks), Pending(s.tasks[id := task]), t,
                 published);
    hide Advance;
    hide Pending;
    hide PendingOf;
    hide Pushed;
    hide Excess;
  }

  lemma WaitingMoves(buffer: seq<Tick>, buffer': seq<Tick>, p: multiset<Tick>, p': multiset<Tick>, t: Tick,
                     published: bool)
    requires p == p' + multiset{t}
    requires if published then buffer' == buffer else forall u :: u in buffer' ==> u in buffer || u == t
    ensures t in multiset(buffer) + p
    ensures published ==> multiset(buffer) + p == multiset(buffer') + p' + multiset{t}
    ensures forall u :: u in multiset(buffer') + p' ==> u in multiset(buffer) + p
  {
    forall u | u in multiset(buffer') + p'
      ensures u in multiset(buffer) + p
    {
      assert u in buffer' || u in p';
    }
  }

  lemma PushedComesFrom(items: seq<Tick>, t: Tick, max: nat)
    ensures forall u :: u in Pushed(items, t, max) ==> u in items || u == t
  {
    assert forall u :: u in Pushed(items, t, max) ==> u in items + [t];
  }

  lemma TakeOne(p: multiset<Tick>, p': multiset<Tick>, rest: multiset<Tick>, t: Tick)
    requires p' + (rest + multiset{t}) == p + rest
    ensures p == p' + multiset{t}
  {
    forall u: Tick
      ensures p[u] == (p' + multiset{t})[u]
    {
      assert (p' + (rest + multiset{t}))[u] == (p + rest)[u];
    }
  }

  lemma PublishKeepsBusFirst(s: State, s': State, t: Tick)
    requires Conserved(s) && Distinct(s.arrived) && InOrder(s.bus, s.arrived) && BusFirst(s)
    requires s'.arrived == s.arrived && s'.bus == s.bus + [t] && Waiting(s) == Waiting(s') + multiset{t}
    requires forall u :: u in Waiting(s) ==> !ArrivedBefore(s.arrived, u, t)
    ensures InOrder(s'.bus, s'.arrived) && BusFirst(s')
  {
    assert t in Waiting(s);
    forall u | u in Waiting(s')
      ensures ArrivedBefore(s.arrived, t, u) && u in Waiting(s)
    {
      OnePlace(s, t);
      OnePlace(s, u);
      assert Waiting(s)[t] == Waiting(s')[t] + 1;
      BeforeOrAfter(s.arrived, t, u);
    }
    assert forall i :: 0 <= i < |s.bus| ==> s.bus[i] in s.bus;
  }

  lemma StepKeepsBusFirst(s: State, e: Event, max: nat)
    requires Conserved(s) && Distinct(s.arrived) && InOrder(s.bus, s.arrived) && BusFirst(s) && !Overtakes(s, e)
    ensures InOrder(Step(s, e, max).bus, Step(s, e, max).arrived) && BusFirst(Step(s, e, max))
  {
    hide InOrder;
    match e
    case Arrive(t) => ArriveKeepsBusFirst(s, t, max);
    case StartFlush =>
      PendingOfAppend(s.tasks, Flush(s.buffer, 0, false, 0, 0));
      assert s.buffer[0..] == s.buffer;
    case Resume(id, accepted) =>
      if id < |s.tasks| && CanResume(s.tasks[id]) {
        AnswerMovesOne(s, id, accepted, max);
        if Publishes(s, e) {
          PublishKeepsBusFirst(s, Answer(s, id, accepted, max), TickOf(s, e));
        }
      }
  }

  lemma ArrivedGrows(es: seq<Event>, max: nat)
    requires es != []
    ensures After(Init(es), max).arrived <= After(es, max).arrived
  {
  }

  lemma NeverOvertakesSplits(es: seq<Event>, max: nat)
    requires es != [] && NeverOvertakes(es, max)
    ensures NeverOvertakes(Init(es), max) && !Overtakes(After(Init(es), max), Last(es))
  {
    hide Overtakes;
    assert Init(es) == es[..|es| - 1];
    forall k | 0 <= k < |Init(es)|
      ensures !Overtakes(After(Init(es)[..k], max), Init(es)[k])
    {
      assert Init(es)[..k] == es[..k] && Init(es)[k] == es[k];
    }
  }

  /** The bus keeps the order of arrival in every run in which no tick is published while an earlier arrival is
      still buffered or in flight. */
  lemma {:induction false} BusKeepsOrder(es: seq<Event>, max: nat)
    requires Distinct(After(es, max).arrived) && NeverOvertakes(es, max)
    ensures InOrder(After(es, max).bus, After(es, max).arrived) && BusFirst(After(es, max))
  {
    if es != [] {
      ArrivedGrows(es, max);
      NeverOvertakesSplits(es, max);
      BusKeepsOrder(Init(es), max);
      EveryTickIsAccountedFor(Init(es), max);
      hide InOrder;
      hide BusFirst;
      hide Overtakes;
      hide Step;
      StepKeepsBusFirst(After(Init(es), max), Last(es), max);
    }
  }

  lemma {:induction false} BusOnlyGrows(es: seq<Event>, k: nat, max: nat)
    requires k <= |es|
    ensures After(es[..k], max).bus <= After(es, max).bus && After(es[..k], max).arrived <= After(es, max).arrived
  {
    if k == |es| {
      assert es[..k] == es;
    } else {
      BusOnlyGrows(Init(es), k, max);
      assert Init(es)[..k] == es[..k];
    }
  }

  /** Once everything that arrived has been published, the condition is exact: the bus is in the order of arrival if
      and only if no tick ever overtook a waiting one. */
  lemma OrderIsKeptIff(es: seq<Event>, max: nat)
    requires var s := After(es, max); Distinct(s.arrived) && s.evicted == [] && Waiting(s) == multiset{}
    ensures InOrder(After(es, max).bus, After(es, max).arrived) <==> NeverOvertakes(es, max)
  {
    var s := After(es, max);
    if NeverOvertakes(es, max) {
      BusKeepsOrder(es, max);
    } else {
      var k :| 0 <= k < |es| && Overtakes(After(es[..k], max), es[k]);
      OvertakingShows(es, k, max);
    }
  }

  lemma OvertakingShows(es: seq<Event>, k: nat, max: nat)
    requires k < |es| && Overtakes(After(es[..k], max), es[k])
    requires var s := After(es, max); Distinct(s.arrived) && s.evicted == [] && Waiting(s) == multiset{}
    ensures !InOrder(After(es, max).bus, After(es, max).arrived)
  {
    var before, s := After(es[..k], max), After(es, max);
    var t := TickOf(before, es[k]);
    var u :| u in Waiting(before) && ArrivedBefore(before.arrived, u, t);
    EveryTickIsAccountedFor(es[..k], max);
    EveryTickIsAccountedFor(es, max);
    BusOnlyGrows(es, k, max);
    PublishedNext(es, k, max);
    hide After;
    hide Conserved;
    hide Overtakes;
    hide Waiting;
    var n := |before.bus|;
    LaterOnTheBus(before, s, u, n);
    var j :| n < j < |s.bus| && s.bus[j] == u;
    BeforeInLonger(before.arrived, s.arrived, u, t);
    NotBothWays(s.arrived, u, t);
    assert !ArrivedBefore(s.arrived, s.bus[n], s.bus[j]);
  }

  lemma PublishedNext(es: seq<Event>, k: nat, max: nat)
    requires k < |es| && Publishes(After(es[..k], max), es[k])
    ensures var n := |After(es[..k], max).bus|;
      After(es[..k], max).bus + [TickOf(After(es[..k], max), es[k])] <= After(es, max).bus
      && n < |After(es, max).bus| && After(es, max).bus[n] == TickOf(After(es[..k], max), es[k])
      && After(es, max).bus[..n] == After(es[..k], max).bus
  {
    AnswerMovesOne(After(es[..k], max), es[k].task, es[k].accepted, max);
    assert Init(es[..k + 1]) == es[..k];
    BusOnlyGrows(es, k + 1, max);
  }

  lemma BeforeInLonger(short: seq<Tick>, long: seq<Tick>, u: Tick, t: Tick)
    requires ArrivedBefore(short, u, t) && short <= long
    ensures ArrivedBefore(long, u, t)
  {
    var i, j :| 0 <= i < j < |short| && short[i] == u && short[j] == t;
    assert long[i] == u && long[j] == t;
  }

  /** A tick that waits when the bus has n ticks, and is not the next one, ends up after the next one. */
  lemma LaterOnTheBus(before: State, s: State, u: Tick, n: nat)
    requires Conserved(before) && Conserved(s) && Distinct(s.arrived) && before.arrived <= s.arrived
    requires s.evicted == [] && Waiting(s) == multiset{} && n == |before.bus| < |s.bus| && s.bus[..n] == before.bus
    requires u in Waiting(before) && ArrivedBefore(before.arrived, u, s.bus[n])
    ensures exists j :: n < j < |s.bus| && s.bus[j] == u
  {
    assert Distinct(before.arrived);
    OnePlace(before, u);
    assert u !in before.bus;
    assert multiset(s.arrived)[u] == multiset(s.bus)[u] by {
      assert multiset(s.arrived) == multiset(s.bus) + Waiting(s);
    }
    assert u in s.arrived && u in s.bus;
    var j :| 0 <= j < |s.bus| && s.bus[j] == u;
    assert forall i :: 0 <= i < n ==> s.bus[i] == before.bus[i];
    NotBeforeItself(before.arrived, u);
    assert j != n && j >= n;
  }

  lemma NotBeforeItself(arrived: seq<Tick>, t: Tick)
    requires Distinct(arrived)
    ensures !ArrivedBefore(arrived, t, t)
  {
  }

  /** The concrete case: two ingests whose answers come back the other way round swap their ticks, with no flush and
      whatever the capacity. */
  lemma AnswersOutOfOrderSwapTicks(a: Tick, b: Tick, max: nat)
    ensures exists es :: After(es, max).arrived == [a, b] && After(es, max).bus == [b, a]
  {
    var e1 := [] + [Arrive(a)];
    var e2 := e1 + [Arrive(b)];
    var e3 := e2 + [Resume(1, true)];
    var e4 := e3 + [Resume(0, true)];
    assert After([], max) == START;
    AfterOneMore([], Arrive(a), max);
    AfterOneMore(e1, Arrive(b), max);
    AfterOneMore(e2, Resume(1, true), max);
    AfterOneMore(e3, Resume(0, true), max);
    hide After;
    assert After(e2, max) == State([a, b], [], [], [], [Ingest(a), Ingest(b)]);
    assert After(e3, max) == State([a, b], [b], [], [], [Ingest(a), IngestDone]);
    assert After(e4, max).arrived == [a, b] && After(e4, max).bus == [b, a];
  }

  lemma AfterOneMore(es: seq<Event>, e: Event, max: nat)
    ensures After(es + [e], max) == Step(After(es, max), e, max)
  {
    assert Init(es + [e]) == es;
  }
}
