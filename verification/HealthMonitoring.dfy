/** The health monitor: an outage arms a cutoff timer that closes the exchange; recovery flushes the buffer. */
module HealthMonitoring {
  import opened Common

  /** `armed` holds the pending timers and when each is due; `closes` the times the exchange was closed. */
  datatype Monitor = Monitor(unhealthySince: Option<nat>, cutoffTimer: Option<nat>, hasFiredCutoff: bool,
                             armed: map<nat, nat>, nextTimer: nat, closes: seq<nat>, flushes: nat)

  datatype Event =
    | Probe(now: nat, healthy: bool)
    | Fire(timer: nat, now: nat)

  const FRESH := Monitor(None, None, false, map[], 0, [], 0)

  /** A timer runs at most once, not before it is due, and never after it has been cleared. */
  function Step(m: Monitor, e: Event, cutoffMs: nat): Monitor {
    match e
    case Probe(now, true) =>
      if m.unhealthySince.None? then m
      else m.(unhealthySince := None, hasFiredCutoff := false, cutoffTimer := None,
              armed := (if m.cutoffTimer.Some? then m.armed - {m.cutoffTimer.value} else m.armed),
              flushes := m.flushes + 1)
    case Probe(now, false) =>
      if m.unhealthySince.Some? then m
      else m.(unhealthySince := Some(now), cutoffTimer := Some(m.nextTimer),
              armed := m.armed[m.nextTimer := now + cutoffMs], nextTimer := m.nextTimer + 1)
    case Fire(id, now) =>
      if id !in m.armed || now < m.armed[id] then m
      else if m.unhealthySince.Some? && !m.hasFiredCutoff then
        m.(armed := m.armed - {id}, hasFiredCutoff := true, closes := m.closes + [now])
      else m.(armed := m.armed - {id})
  }

  // ---------- The classes ----------

  class Timers {
    var armed: map<nat, nat>
    var next: nat

    constructor ()
      ensures armed == map[] && next == 0
    {
      armed, next := map[], 0;
    }

    method Set(due: nat) returns (id: nat)
      modifies this
      ensures id == old(next) && next == old(next) + 1 && armed == old(armed)[id := due]
    {
      id := next;
      next := next + 1;
      armed := armed[id := due];
    }

    method Clear(id: nat)
      modifies this`armed
      ensures armed == old(armed) - {id}
    {
      armed := armed - {id};
    }
  }

  /** The exchange gateway's close and the flush use case, recorded. */
  class Effects {
    var closes: seq<nat>
    var flushes: nat

    constructor ()
      ensures closes == [] && flushes == 0
    {
      closes, flushes := [], 0;
    }

    method CloseExchange(now: nat)
      modifies this`closes
      ensures closes == old(closes) + [now]
    {
      closes := closes + [now];
    }

    /** A flush that throws is logged and forgotten. */
    method Flush()
      modifies this`flushes
      ensures flushes == old(flushes) + 1
    {
      flushes := flushes + 1;
    }
  }

  class HealthMonitorUseCase {
    const cutoffMs: nat
    const timers: Timers
    const effects: Effects
    var unhealthySince: Option<nat>
    var cutoffTimer: Option<nat>
    var hasFiredCutoff: bool

    /** A cutoff of zero throws in the source. */
    constructor (cutoffMs: nat, timers: Timers, effects: Effects)
      requires cutoffMs > 0
      requires timers.armed == map[] && timers.next == 0 && effects.closes == [] && effects.flushes == 0
      ensures this.cutoffMs == cutoffMs && this.timers == timers && this.effects == effects && Contents() == FRESH
    {
      this.cutoffMs, this.timers, this.effects := cutoffMs, timers, effects;
      unhealthySince, cutoffTimer, hasFiredCutoff := None, None, false;
    }

    ghost function Contents(): Monitor
      reads this, timers, effects
    {
      Monitor(unhealthySince, cutoffTimer, hasFiredCutoff, timers.armed, timers.next, effects.closes, effects.flushes)
    }

    method Tick(now: nat, healthy: bool)
      modifies this, timers, effects
      ensures Contents() == Step(old(Contents()), Probe(now, healthy), cutoffMs)
    {
      if healthy {
        if unhealthySince.Some? {
          unhealthySince := None;
          hasFiredCutoff := false;
          if cutoffTimer.Some? {
            timers.Clear(cutoffTimer.value);
            cutoffTimer := None;
          }
          effects.Flush();
        }
        return;
      }
      if unhealthySince.None? {
        unhealthySince := Some(now);
        var id := timers.Set(now + cutoffMs);
        cutoffTimer := Some(id);
      }
    }

    /** The timer queue runs timer `id` at time `now`, if it is pending and due. */
    method OnTimer(id: nat, now: nat)
      modifies this, timers, effects
      ensures Contents() == Step(old(Contents()), Fire(id, now), cutoffMs)
    {
      if id in timers.armed && timers.armed[id] <= now {
        timers.Clear(id);
        if unhealthySince.Some? && !hasFiredCutoff {
          hasFiredCutoff := true;
          effects.CloseExchange(now);
        }
      }
    }
  }

  // ---------- Traces ----------

  function After(es: seq<Event>, cutoffMs: nat): Monitor {
    if es == [] then FRESH else Step(After(Init(es), cutoffMs), Last(es), cutoffMs)
  }

  /** Event number k closes the exchange. */
  predicate Closes(es: seq<Event>, k: nat, cutoffMs: nat)
    requires k < |es|
  {
    |After(es[..k + 1], cutoffMs).closes| > |After(es[..k], cutoffMs).closes|
  }

  predicate HealthyProbe(e: Event) {
    e.Probe? && e.healthy
  }

  predicate UnhealthyProbe(e: Event) {
    e.Probe? && !e.healthy
  }

  /** Event j is the unhealthy probe that starts the outage in progress after es: no outage was in
      progress before it and no healthy probe follows it. */
  ghost predicate StartsOutage(es: seq<Event>, j: nat) {
    j < |es| && UnhealthyProbe(es[j])
    && (forall i :: j < i < |es| ==> !HealthyProbe(es[i]))
    && (forall i :: 0 <= i < j && UnhealthyProbe(es[i]) ==> exists h :: i < h < j && HealthyProbe(es[h]))
  }

  /** Number of probes that find the broker healthy after the probe before found it unhealthy. */
  function Recoveries(es: seq<Event>): nat {
    if es == [] then 0
    else Recoveries(Init(es)) + if HealthyProbe(Last(es)) && LastProbeUnhealthy(Init(es)) then 1 else 0
  }

  predicate LastProbeUnhealthy(es: seq<Event>) {
    es != [] && if Last(es).Probe? then !Last(es).healthy else LastProbeUnhealthy(Init(es))
  }

  // ---------- The invariant ----------

  /** One timer at most is pending, it is the current outage's, and it goes when the outage ends or it fires. */
  ghost predicate Inv(es: seq<Event>, m: Monitor, cutoffMs: nat) {
    (m.unhealthySince.Some? <==> LastProbeUnhealthy(es))
    && m.flushes == Recoveries(es)
    && (m.unhealthySince.None? ==> (
          m.armed == map[] && m.cutoffTimer == None && !m.hasFiredCutoff && EveryOutageIsOver(es)))
    && (m.unhealthySince.Some? ==> (
          m.cutoffTimer.Some?
          && m.armed == (if m.hasFiredCutoff then map[]
                         else map[m.cutoffTimer.value := m.unhealthySince.value + cutoffMs])
          && exists j: nat :: StartsOutage(es, j) && es[j].now == m.unhealthySince.value))
  }

  ghost predicate EveryOutageIsOver(es: seq<Event>) {
    forall i :: 0 <= i < |es| && UnhealthyProbe(es[i]) ==> exists h :: i < h < |es| && HealthyProbe(es[h])
  }

  lemma {:induction false} TraceKeepsInv(es: seq<Event>, cutoffMs: nat)
    ensures Inv(es, After(es, cutoffMs), cutoffMs)
  {
    if es != [] {
      var before, m := Init(es), After(Init(es), cutoffMs);
      TraceKeepsInv(before, cutoffMs);
      if HealthyProbe(Last(es)) {
        assert es[|es| - 1] == Last(es);
      } else if m.unhealthySince.Some? {
        var j: nat :| StartsOutage(before, j) && before[j].now == m.unhealthySince.value;
        OutageContinues(es, j);
      } else if UnhealthyProbe(Last(es)) {
        OutageBegins(es);
      } else {
        NoOutageContinues(es);
      }
    }
  }

  lemma OutageContinues(es: seq<Event>, j: nat)
    requires es != [] && !HealthyProbe(Last(es)) && StartsOutage(Init(es), j)
    ensures StartsOutage(es, j)
  {
    forall i | 0 <= i < j && UnhealthyProbe(es[i])
      ensures exists h :: i < h < j && HealthyProbe(es[h])
    {
      var h :| i < h < j && HealthyProbe(Init(es)[h]);
      assert HealthyProbe(es[h]);
    }
  }

  lemma OutageBegins(es: seq<Event>)
    requires es != [] && UnhealthyProbe(Last(es))
    requires EveryOutageIsOver(Init(es))
    ensures StartsOutage(es, |es| - 1)
  {
    forall i | 0 <= i < |es| - 1 && UnhealthyProbe(es[i])
      ensures exists h :: i < h < |es| - 1 && HealthyProbe(es[h])
    {
      assert Init(es)[i] == es[i];
      var h :| i < h < |Init(es)| && HealthyProbe(Init(es)[h]);
      assert HealthyProbe(es[h]);
    }
  }

  lemma NoOutageContinues(es: seq<Event>)
    requires es != [] && !UnhealthyProbe(Last(es))
    requires EveryOutageIsOver(Init(es))
    ensures EveryOutageIsOver(es)
  {
    forall i | 0 <= i < |es| && UnhealthyProbe(es[i])
      ensures exists h :: i < h < |es| && HealthyProbe(es[h])
    {
      assert Init(es)[i] == es[i];
      var h :| i < h < |Init(es)| && HealthyProbe(Init(es)[h]);
      assert HealthyProbe(es[h]);
    }
  }

  // ---------- Main results ----------

  /** The buffer is flushed exactly once per recovery. */
  lemma OneFlushPerRecovery(es: seq<Event>, cutoffMs: nat)
    ensures After(es, cutoffMs).flushes == Recoveries(es)
  {
    TraceKeepsInv(es, cutoffMs);
  }

  lemma AfterPrefix(es: seq<Event>, k: nat, cutoffMs: nat)
    requires k < |es|
    ensures After(es[..k + 1], cutoffMs) == Step(After(es[..k], cutoffMs), es[k], cutoffMs)
  {
    assert Init(es[..k + 1]) == es[..k] && Last(es[..k + 1]) == es[k];
  }

  /** The exchange is closed only during an outage, at least cutoffMs after the probe that started it,
      so never by a timer of an earlier outage and never when the broker came back in time. */
  lemma ClosesOnlyAfterTheCutoff(es: seq<Event>, k: nat, cutoffMs: nat)
    requires k < |es| && Closes(es, k, cutoffMs)
    ensures es[k].Fire? && exists j: nat :: StartsOutage(es[..k], j) && es[k].now >= es[j].now + cutoffMs
  {
    AfterPrefix(es, k, cutoffMs);
    TraceKeepsInv(es[..k], cutoffMs);
    var m := After(es[..k], cutoffMs);
    var j: nat :| StartsOutage(es[..k], j) && es[..k][j].now == m.unhealthySince.value;
    assert es[..k][j] == es[j];
  }

  /** A pending timer that is due always closes the exchange when it runs: timers are cleared, not ignored. */
  lemma DueTimerAlwaysCloses(es: seq<Event>, k: nat, cutoffMs: nat)
    requires k < |es| && es[k].Fire?
    ensures var m := After(es[..k], cutoffMs);
      Closes(es, k, cutoffMs) <==> es[k].timer in m.armed && m.armed[es[k].timer] <= es[k].now
  {
    AfterPrefix(es, k, cutoffMs);
    TraceKeepsInv(es[..k], cutoffMs);
  }

  lemma {:induction false} StaysFired(es: seq<Event>, i: nat, k: nat, cutoffMs: nat)
    requires i < k <= |es| && Closes(es, i, cutoffMs)
    requires forall h :: i < h < k ==> !HealthyProbe(es[h])
    ensures After(es[..k], cutoffMs).hasFiredCutoff
    decreases k
  {
    AfterPrefix(es, k - 1, cutoffMs);
    if k > i + 1 {
      StaysFired(es, i, k - 1, cutoffMs);
    }
  }

  /** At most one close per outage: between two closes the broker was seen healthy. */
  lemma ClosesAtMostOncePerOutage(es: seq<Event>, i: nat, k: nat, cutoffMs: nat)
    requires i < k < |es| && Closes(es, i, cutoffMs) && Closes(es, k, cutoffMs)
    ensures exists h :: i < h < k && HealthyProbe(es[h])
  {
    if forall h :: i < h < k ==> !HealthyProbe(es[h]) {
      StaysFired(es, i, k, cutoffMs);
      AfterPrefix(es, k, cutoffMs);
      assert false;
    }
  }

  /** Only one probe starts the outage in progress. */
  lemma OutageStartIsUnique(es: seq<Event>, i: nat, j: nat)
    requires StartsOutage(es, i) && StartsOutage(es, j)
    ensures i == j
  {
  }

  lemma {:induction false} FiredMeansClosed(es: seq<Event>, k: nat, cutoffMs: nat)
    requires k <= |es| && After(es[..k], cutoffMs).hasFiredCutoff
    ensures exists i: nat :: i < k && Closes(es, i, cutoffMs) && forall h :: i < h < k ==> !HealthyProbe(es[h])
    decreases k
  {
    if k > 0 {
      AfterPrefix(es, k - 1, cutoffMs);
      TraceKeepsInv(es[..k - 1], cutoffMs);
      if After(es[..k - 1], cutoffMs).hasFiredCutoff {
        FiredMeansClosed(es, k - 1, cutoffMs);
        assert !HealthyProbe(es[k - 1]);
      } else {
        assert Closes(es, k - 1, cutoffMs);
      }
    }
  }

  lemma NoneHealthySince(es: seq<Event>, i: nat, o: nat)
    requires i <= |es| && StartsOutage(es[..i], o)
    ensures o < i && UnhealthyProbe(es[o]) && forall h :: o < h < i ==> !HealthyProbe(es[h])
  {
    assert forall h :: 0 <= h < i ==> es[..i][h] == es[h];
  }

  lemma HealthyBefore(es: seq<Event>, k: nat, j: nat, o: nat)
    requires k <= |es| && StartsOutage(es[..k], j) && o < k && UnhealthyProbe(es[o])
    ensures o < j ==> exists h :: o < h < j && HealthyProbe(es[h])
  {
    assert forall h :: 0 <= h < k ==> es[..k][h] == es[h];
  }

  /** A close that no healthy probe has followed belongs to the outage in progress. */
  lemma ClosedInThisOutage(es: seq<Event>, k: nat, j: nat, i: nat, cutoffMs: nat)
    requires k <= |es| && i < k && StartsOutage(es[..k], j) && Closes(es, i, cutoffMs)
    requires forall h :: i < h < k ==> !HealthyProbe(es[h])
    ensures j < i
  {
    hide Closes;
    ClosesOnlyAfterTheCutoff(es, i, cutoffMs);
    var o: nat :| StartsOutage(es[..i], o) && es[i].now >= es[o].now + cutoffMs;
    NoneHealthySince(es, i, o);
    NoneHealthySince(es, k, j);
    HealthyBefore(es, k, j, o);
    hide StartsOutage;
  }

  lemma NotFiredInThisOutage(es: seq<Event>, k: nat, j: nat, cutoffMs: nat)
    requires k <= |es| && StartsOutage(es[..k], j) && forall i :: j < i < k ==> !Closes(es, i, cutoffMs)
    ensures !After(es[..k], cutoffMs).hasFiredCutoff
  {
    hide Closes;
    hide StartsOutage;
    hide After;
    if After(es[..k], cutoffMs).hasFiredCutoff {
      FiredMeansClosed(es, k, cutoffMs);
      var i: nat :| i < k && Closes(es, i, cutoffMs) && forall h :: i < h < k ==> !HealthyProbe(es[h]);
      ClosedInThisOutage(es, k, j, i, cutoffMs);
    }
  }

  lemma OutageSince(es: seq<Event>, j: nat, cutoffMs: nat)
    requires StartsOutage(es, j)
    ensures After(es, cutoffMs).unhealthySince == Some(es[j].now)
  {
    TraceKeepsInv(es, cutoffMs);
    hide After;
    var m := After(es, cutoffMs);
    assert UnhealthyProbe(es[j]);
    if m.unhealthySince.Some? {
      var o: nat :| StartsOutage(es, o) && es[o].now == m.unhealthySince.value;
      OutageStartIsUnique(es, o, j);
    }
  }

  /** The outage's own timer closes the exchange exactly from cutoffMs after the outage's first probe on, unless it has
      been closed in this outage. */
  lemma CutoffClosesTheExchange(es: seq<Event>, k: nat, j: nat, cutoffMs: nat)
    requires k < |es| && es[k].Fire? && StartsOutage(es[..k], j)
    requires After(es[..k], cutoffMs).cutoffTimer == Some(es[k].timer)
    requires forall i :: j < i < k ==> !Closes(es, i, cutoffMs)
    ensures Closes(es, k, cutoffMs) <==> es[k].now >= es[j].now + cutoffMs
  {
    NotFiredInThisOutage(es, k, j, cutoffMs);
    OutageSince(es[..k], j, cutoffMs);
    DueTimerAlwaysCloses(es, k, cutoffMs);
    TraceKeepsInv(es[..k], cutoffMs);
    assert es[..k][j] == es[j];
    hide After;
    hide Closes;
    hide StartsOutage;
  }

  /** Event k arms a timer of its own. */
  predicate Arms(es: seq<Event>, k: nat, cutoffMs: nat)
    requires k < |es|
  {
    After(es[..k], cutoffMs).cutoffTimer.None? && After(es[..k + 1], cutoffMs).cutoffTimer.Some?
  }

  lemma {:induction false} TimersCountUp(es: seq<Event>, i: nat, k: nat, cutoffMs: nat)
    requires i <= k <= |es|
    ensures After(es[..i], cutoffMs).nextTimer <= After(es[..k], cutoffMs).nextTimer
    decreases k
  {
    if i < k {
      TimersCountUp(es, i, k - 1, cutoffMs);
      AfterPrefix(es, k - 1, cutoffMs);
    }
  }

  /** No two outages share a timer: one left over from an earlier outage can never act in a later one. */
  lemma EveryOutageHasItsOwnTimer(es: seq<Event>, i: nat, k: nat, cutoffMs: nat)
    requires i < k < |es| && Arms(es, i, cutoffMs) && Arms(es, k, cutoffMs)
    ensures After(es[..i + 1], cutoffMs).cutoffTimer != After(es[..k + 1], cutoffMs).cutoffTimer
  {
    AfterPrefix(es, i, cutoffMs);
    AfterPrefix(es, k, cutoffMs);
    TimersCountUp(es, i + 1, k, cutoffMs);
  }
}
