/** The daily drawdown breaker: opening the day, checking the drawdown, and tripping. */
module CircuitBreaker {
  import opened Common

  // ---------- Verdicts ----------

  datatype DrawdownState = SAFE | WARN | TRIP | HALTED

  datatype DrawdownSnapshot = DrawdownSnapshot(startingBalance: real, currentBalance: real, takenAt: int)
  {
    /** The constructor's checks. */
    predicate Valid() {
      startingBalance > 0.0 && currentBalance >= 0.0
    }

    function DrawdownPct(): (r: real)
      requires Valid()
      ensures 0.0 <= r <= 1.0
    {
      if currentBalance >= startingBalance then 0.0 else (startingBalance - currentBalance) / startingBalance
    }
  }

  datatype Breaker = Breaker(threshold: real, warnRatio: real)
  {
    predicate Valid() {
      0.0 < threshold <= 1.0 && 0.0 < warnRatio <= 1.0
    }

    function WarnThreshold(): real {
      threshold * warnRatio
    }

    function Evaluate(snapshot: DrawdownSnapshot, current: Option<DrawdownState>): DrawdownState
      requires snapshot.Valid()
    {
      if current == Some(HALTED) then HALTED
      else if snapshot.DrawdownPct() >= threshold then TRIP
      else if snapshot.DrawdownPct() >= WarnThreshold() then WARN
      else SAFE
    }
  }

  datatype CheckError = SnapshotUnavailable | SnapshotMissing | JournalUnavailable | InvalidSnapshot | TripIncomplete

  /** The verdict on a day opened with `start` after realising `pnl`. */
  function Verdict(b: Breaker, start: real, pnl: real, current: Option<DrawdownState>,
                   now: int): Result<DrawdownState, CheckError> {
    var today := DrawdownSnapshot(start, start + pnl, now);
    if today.Valid() then Ok(b.Evaluate(today, current)) else Err(InvalidSnapshot)
  }

  /** The verdict by the day's loss: a trip exactly from the threshold up to losing everything, a refusal
      beyond that - a loss of more than the starting balance raises instead of tripping. */
  lemma VerdictByLoss(b: Breaker, start: real, pnl: real, current: Option<DrawdownState>, now: int)
    requires b.Valid() && start > 0.0
    ensures Verdict(b, start, pnl, current, now) == Err(InvalidSnapshot) <==> pnl < -start
    ensures Verdict(b, start, pnl, current, now) == Ok(HALTED) <==> pnl >= -start && current == Some(HALTED)
    ensures Verdict(b, start, pnl, current, now) == Ok(TRIP)
            <==> current != Some(HALTED) && -start <= pnl <= -(b.threshold * start)
    ensures Verdict(b, start, pnl, current, now) == Ok(WARN)
            <==> current != Some(HALTED) && -(b.threshold * start) < pnl <= -(b.WarnThreshold() * start)
  {
    QuotientAtLeast(-pnl, start, b.threshold);
    QuotientAtLeast(-pnl, start, b.WarnThreshold());
    PositiveProduct(b.threshold, start);
    PositiveProduct(b.threshold, b.warnRatio);
    PositiveProduct(b.WarnThreshold(), start);
    AtMostWhole(b.threshold, start);
    WarnsBeforeTripping(b);
    OrderTimes(b.threshold, b.WarnThreshold(), start);
    assert start - (start + pnl) == -pnl;
  }

  lemma AtMostWhole(part: real, whole: real)
    requires part <= 1.0 && whole > 0.0
    ensures part * whole <= whole && whole * part <= whole
  {
  }

  lemma WarnsBeforeTripping(b: Breaker)
    requires b.Valid()
    ensures b.WarnThreshold() <= b.threshold
  {
    var t, w := b.threshold, b.warnRatio;
    AtMostWhole(w, t);
    assert b.WarnThreshold() == t * w;
  }

  /** Safe, warning, tripping, refusing the snapshot: how bad a verdict is. */
  function Severity(v: Result<DrawdownState, CheckError>): nat {
    match v
    case Ok(SAFE) => 0
    case Ok(WARN) => 1
    case Ok(TRIP) => 2
    case Ok(HALTED) => 2
    case Err(_) => 3
  }

  // ---------- The trade journal ----------

  datatype TradeRecord = TradeRecord(realizedPnl: real, closedAt: int)

  function PnlSince(records: seq<TradeRecord>, since: int): real {
    if records == [] then 0.0
    else PnlSince(Init(records), since) + if Last(records).closedAt >= since then Last(records).realizedPnl else 0.0
  }

  class InMemoryTradeJournal {
    var records: seq<TradeRecord>

    constructor ()
      ensures records == []
    {
      records := [];
    }

    method Add(r: TradeRecord)
      modifies this
      ensures records == old(records) + [r]
    {
      records := records + [r];
    }

    method RealizedPnlSince(since: int) returns (total: real)
      ensures total == PnlSince(records, since)
    {
      total := 0.0;
      for k := 0 to |records|
        invariant total == PnlSince(records[..k], since)
      {
        assert Init(records[..k + 1]) == records[..k];
        if records[k].closedAt >= since {
          total := total + records[k].realizedPnl;
        }
      }
      assert records[..|records|] == records;
    }
  }

  function SumPnl(records: seq<TradeRecord>): real {
    if records == [] then 0.0 else SumPnl(Init(records)) + Last(records).realizedPnl
  }

  /** The journal's figure is the plain sum of what was closed at that time or later, in whatever order the records
      came. */
  lemma {:induction false} PnlSinceSums(earlier: seq<TradeRecord>, later: seq<TradeRecord>, since: int)
    requires forall k :: 0 <= k < |earlier| ==> earlier[k].closedAt < since
    requires forall k :: 0 <= k < |later| ==> later[k].closedAt >= since
    ensures PnlSince(earlier + later, since) == SumPnl(later)
  {
    if later == [] {
      assert earlier + later == earlier;
      if earlier != [] {
        PnlSinceSums(Init(earlier), [], since);
        assert Init(earlier) + [] == Init(earlier);
      }
    } else {
      assert Init(earlier + later) == earlier + Init(later) && Last(earlier + later) == Last(later);
      PnlSinceSums(earlier, Init(later), since);
    }
  }

  lemma {:induction false} LossesOnlySubtract(records: seq<TradeRecord>, losses: seq<TradeRecord>, since: int)
    requires forall k :: 0 <= k < |losses| ==> losses[k].realizedPnl <= 0.0
    ensures PnlSince(records + losses, since) <= PnlSince(records, since)
  {
    if losses == [] {
      assert records + losses == records;
    } else {
      assert Init(records + losses) == records + Init(losses);
      LossesOnlySubtract(records, Init(losses), since);
    }
  }

  /** Appending losses to the journal never makes the verdict milder. */
  lemma SeverityIsMonotone(b: Breaker, start: real, records: seq<TradeRecord>, losses: seq<TradeRecord>, since: int,
                           current: Option<DrawdownState>, now: int, later: int)
    requires b.Valid() && start > 0.0 && forall k :: 0 <= k < |losses| ==> losses[k].realizedPnl <= 0.0
    ensures Severity(Verdict(b, start, PnlSince(records, since), current, now))
            <= Severity(Verdict(b, start, PnlSince(records + losses, since), current, later))
  {
    LossesOnlySubtract(records, losses, since);
    VerdictByLoss(b, start, PnlSince(records, since), current, now);
    VerdictByLoss(b, start, PnlSince(records + losses, since), current, later);
    AtMostWhole(b.threshold, start);
    WarnsBeforeTripping(b);
    OrderTimes(b.threshold, b.WarnThreshold(), start);
  }

  // ---------- Trip actions ----------

  datatype TripStep = CANCEL_ORDERS | CLOSE_POSITIONS | SET_PASIVO | HALT

  const CANONICAL := [CANCEL_ORDERS, CLOSE_POSITIONS, SET_PASIVO, HALT]

  function FirstIndex(steps: seq<TripStep>, step: TripStep): (i: nat)
    requires step in steps
    ensures i < |steps| && steps[i] == step && forall j :: 0 <= j < i ==> steps[j] != step
  {
    if steps[0] == step then 0 else 1 + FirstIndex(steps[1..], step)
  }

  /** The constructor's check: the first occurrence of a step is at its canonical position. */
  predicate ValidAction(steps: seq<TripStep>) {
    steps != [] && forall k :: 0 <= k < |CANONICAL| && CANONICAL[k] in steps ==> FirstIndex(steps, CANONICAL[k]) == k
  }

  /** Every action the check admits starts by cancelling orders, and no step comes before its canonical place:
      nothing is set passive or halted among the first two steps. */
  lemma NoStepComesEarly(steps: seq<TripStep>, k: nat)
    requires ValidAction(steps) && k < |steps|
    ensures steps[0] == CANCEL_ORDERS
    ensures k < 2 ==> steps[k] == CANCEL_ORDERS || steps[k] == CLOSE_POSITIONS
    ensures k < 3 ==> steps[k] != HALT
  {
    assert CANONICAL[0] == CANCEL_ORDERS && CANONICAL[1] == CLOSE_POSITIONS && CANONICAL[2] == SET_PASIVO
      && CANONICAL[3] == HALT;
    assert steps[0] in steps && steps[k] in steps;
  }

  lemma CanonicalIsValid()
    ensures ValidAction(CANONICAL)
  {
    assert CANONICAL[0] == CANCEL_ORDERS && CANONICAL[1] == CLOSE_POSITIONS && CANONICAL[2] == SET_PASIVO
      && CANONICAL[3] == HALT;
    forall k | 0 <= k < |CANONICAL|
      ensures FirstIndex(CANONICAL, CANONICAL[k]) == k
    {
    }
  }

  // ---------- The ports ----------

  class InMemorySnapshotRepo {
    var slot: Option<DrawdownSnapshot>

    constructor ()
      ensures slot == None
    {
      slot := None;
    }

    method Save(snapshot: DrawdownSnapshot)
      modifies this
      ensures slot == Some(snapshot)
    {
      slot := Some(snapshot);
    }

    method Load() returns (snapshot: Option<DrawdownSnapshot>)
      ensures snapshot == slot
    {
      snapshot := slot;
    }

    method Clear()
      modifies this
      ensures slot == None
    {
      slot := None;
    }
  }

  datatype Mode = BACKTESTING | PAPER_TRADING | LIVE | PASIVO

  datatype PortCall = Trip(step: TripStep) | LoadSnapshot | SaveSnapshot | ReadJournal

  datatype Attempt = Attempt(call: PortCall, ok: bool)

  /** Exchange, mode writer, snapshot repository and journal behind connections that fail as they like; the
      log holds every call made, in order. */
  class Ports {
    const works: nat -> bool
    const repo: InMemorySnapshotRepo
    const journal: InMemoryTradeJournal
    var log: seq<Attempt>
    var mode: Mode

    constructor (works: nat -> bool, repo: InMemorySnapshotRepo, journal: InMemoryTradeJournal, mode: Mode)
      ensures this.works == works && this.repo == repo && this.journal == journal && this.mode == mode && log == []
    {
      this.works, this.repo, this.journal, this.mode, log := works, repo, journal, mode, [];
    }

    method Connect(call: PortCall) returns (ok: bool)
      modifies this`log
      ensures ok == works(|old(log)|) && log == old(log) + [Attempt(call, ok)]
    {
      ok := works(|log|);
      log := log + [Attempt(call, ok)];
    }

    /** A trip step against the port it belongs to. */
    method Perform(step: TripStep) returns (ok: bool)
      modifies this, repo
      ensures ok == works(|old(log)|) && log == old(log) + [Attempt(Trip(step), ok)]
      ensures mode == if ok && step == SET_PASIVO then PASIVO else old(mode)
      ensures repo.slot == if ok && step == HALT then None else old(repo.slot)
    {
      ok := Connect(Trip(step));
      if ok && step == SET_PASIVO {
        mode := PASIVO;
      } else if ok && step == HALT {
        repo.Clear();
      }
    }
  }

  // ---------- Tripping ----------

  datatype StepResult = StepResult(step: TripStep, ok: bool)

  datatype TripResult = TripResult(steps: seq<StepResult>, envMode: Option<Mode>)

  /** Every step once, in order, whatever becomes of the others; the log had n entries before. */
  function Attempts(steps: seq<TripStep>, works: nat -> bool, n: nat): (a: seq<Attempt>)
    ensures |a| == |steps|
  {
    if steps == [] then []
    else Attempts(Init(steps), works, n) + [Attempt(Trip(Last(steps)), works(n + |steps| - 1))]
  }

  /** The step occurs among them and worked. */
  predicate Achieved(step: TripStep, steps: seq<TripStep>, works: nat -> bool, n: nat) {
    steps != [] && (Achieved(step, Init(steps), works, n) || (Last(steps) == step && works(n + |steps| - 1)))
  }

  predicate AllWork(works: nat -> bool, n: nat, count: nat) {
    forall k :: n <= k < n + count ==> works(k)
  }

  class TripCircuitBreakerUseCase {
    const ports: Ports
    const steps: seq<TripStep>

    constructor (ports: Ports, steps: seq<TripStep>)
      requires ValidAction(steps)
      ensures this.ports == ports && this.steps == steps
    {
      this.ports, this.steps := ports, steps;
    }

    /** The action taken when none is given. */
    constructor Canonical(ports: Ports)
      ensures this.ports == ports && this.steps == CANONICAL && ValidAction(steps)
    {
      this.ports, this.steps := ports, CANONICAL;
      CanonicalIsValid();
    }

    /** Attempts all steps and fails unless every one of them worked. */
    method Execute() returns (r: Option<TripResult>)
      modifies ports, ports.repo
      ensures ports.log == old(ports.log) + Attempts(steps, ports.works, |old(ports.log)|)
      ensures ports.mode == if Achieved(SET_PASIVO, steps, ports.works, |old(ports.log)|) then PASIVO
        else old(ports.mode)
      ensures ports.repo.slot
        == if Achieved(HALT, steps, ports.works, |old(ports.log)|) then None else old(ports.repo.slot)
      ensures r.Some? <==> AllWork(ports.works, |old(ports.log)|, |steps|)
      ensures r.Some? ==> r.value.envMode == (if SET_PASIVO in steps then Some(PASIVO) else None)
      ensures r.Some? ==> |r.value.steps| == |steps|
      ensures r.Some? ==> forall k :: 0 <= k < |steps| ==> r.value.steps[k] == StepResult(steps[k], true)
    {
      var results: seq<StepResult> := [];
      var envMode: Option<Mode> := None;
      var failed := false;
      assert Underway(steps[..0], ports.log, ports.mode, ports.repo.slot, results, envMode, failed, ports.log,
                      ports.mode, ports.repo.slot, ports.works);
      hide Underway;
      for k := 0 to |steps|
        invariant Underway(steps[..k], ports.log, ports.mode, ports.repo.slot, results, envMode, failed,
                           old(ports.log), old(ports.mode), old(ports.repo.slot), ports.works)
      {
        assert Init(steps[..k + 1]) == steps[..k];
        OneMoreStep(steps[..k + 1], ports.log, ports.mode, ports.repo.slot, results, envMode, failed,
                    old(ports.log), old(ports.mode), old(ports.repo.slot), ports.works);
        var ok := ports.Perform(steps[k]);
        if ok && steps[k] == SET_PASIVO {
          envMode := Some(PASIVO);
        }
        failed := failed || !ok;
        results := results + [StepResult(steps[k], ok)];
      }
      assert steps[..|steps|] == steps;
      AllSteps(steps, ports.log, ports.mode, ports.repo.slot, results, envMode, failed,
               old(ports.log), old(ports.mode), old(ports.repo.slot), ports.works);
      r := if failed then None else Some(TripResult(results, envMode));
    }
  }

  /** Where the loop stands after these steps: log, mode and snapshot, and what it has noted, given the log,
      mode and snapshot it began with. */
  ghost predicate Underway(steps: seq<TripStep>, log: seq<Attempt>, mode: Mode, slot: Option<DrawdownSnapshot>,
                           results: seq<StepResult>, envMode: Option<Mode>, failed: bool,
                           log0: seq<Attempt>, mode0: Mode, slot0: Option<DrawdownSnapshot>, works: nat -> bool) {
    var n := |log0|;
    log == log0 + Attempts(steps, works, n)
    && mode == (if Achieved(SET_PASIVO, steps, works, n) then PASIVO else mode0)
    && slot == (if Achieved(HALT, steps, works, n) then None else slot0)
    && |results| == |steps| && (forall j :: 0 <= j < |steps| ==> results[j] == StepResult(steps[j], works(n + j)))
    && failed == !AllWork(works, n, |steps|)
    && envMode == if Achieved(SET_PASIVO, steps, works, n) then Some(PASIVO) else None
  }

  lemma OneMoreStep(steps: seq<TripStep>, log: seq<Attempt>, mode: Mode, slot: Option<DrawdownSnapshot>,
                    results: seq<StepResult>, envMode: Option<Mode>, failed: bool,
                    log0: seq<Attempt>, mode0: Mode, slot0: Option<DrawdownSnapshot>, works: nat -> bool)
    requires steps != [] && Underway(Init(steps), log, mode, slot, results, envMode, failed, log0, mode0, slot0, works)
    ensures |log| == |log0| + |steps| - 1
    ensures var step, ok := Last(steps), works(|log|);
      Underway(steps, log + [Attempt(Trip(step), ok)],
               if ok && step == SET_PASIVO then PASIVO else mode,
               if ok && step == HALT then None else slot,
               results + [StepResult(step, ok)],
               if ok && step == SET_PASIVO then Some(PASIVO) else envMode,
               failed || !ok, log0, mode0, slot0, works)
  {
    var n := |log0|;
    var next := Attempt(Trip(Last(steps)), works(n + |steps| - 1));
    assert log0 + Attempts(Init(steps), works, n) + [next] == log0 + (Attempts(Init(steps), works, n) + [next]);
  }

  lemma AllSteps(steps: seq<TripStep>, log: seq<Attempt>, mode: Mode, slot: Option<DrawdownSnapshot>,
                 results: seq<StepResult>, envMode: Option<Mode>, failed: bool,
                 log0: seq<Attempt>, mode0: Mode, slot0: Option<DrawdownSnapshot>, works: nat -> bool)
    requires Underway(steps, log, mode, slot, results, envMode, failed, log0, mode0, slot0, works)
    ensures log == log0 + Attempts(steps, works, |log0|)
    ensures mode == (if Achieved(SET_PASIVO, steps, works, |log0|) then PASIVO else mode0)
    ensures slot == (if Achieved(HALT, steps, works, |log0|) then None else slot0)
    ensures failed == !AllWork(works, |log0|, |steps|)
    ensures !failed ==> envMode == (if SET_PASIVO in steps then Some(PASIVO) else None)
    ensures !failed ==> |results| == |steps|
    ensures !failed ==> forall k :: 0 <= k < |steps| ==> results[k] == StepResult(steps[k], true)
  {
    if !failed {
      AllAchieved(steps, works, |log0|);
    }
  }

  lemma {:induction false} AllAchieved(steps: seq<TripStep>, works: nat -> bool, n: nat)
    requires AllWork(works, n, |steps|)
    ensures Achieved(SET_PASIVO, steps, works, n) <==> SET_PASIVO in steps
  {
    if steps != [] {
      assert works(n + |steps| - 1);
      AllAchieved(Init(steps), works, n);
      assert steps == Init(steps) + [Last(steps)];
    }
  }

  /** The four outcomes of a canonical trip decide everything: it turns passive exactly if the third call
      worked, drops the snapshot exactly if the fourth did, and only reports success with both done. */
  lemma CanonicalTripEffects(works: nat -> bool, n: nat)
    ensures Achieved(SET_PASIVO, CANONICAL, works, n) <==> works(n + 2)
    ensures Achieved(HALT, CANONICAL, works, n) <==> works(n + 3)
    ensures AllWork(works, n, |CANONICAL|)
      ==> Achieved(SET_PASIVO, CANONICAL, works, n) && Achieved(HALT, CANONICAL, works, n)
    ensures Attempts(CANONICAL, works, n)
      == [Attempt(Trip(CANCEL_ORDERS), works(n)), Attempt(Trip(CLOSE_POSITIONS), works(n + 1)),
          Attempt(Trip(SET_PASIVO), works(n + 2)), Attempt(Trip(HALT), works(n + 3))]
  {
    var one, two := [CANCEL_ORDERS], [CANCEL_ORDERS, CLOSE_POSITIONS];
    var three := [CANCEL_ORDERS, CLOSE_POSITIONS, SET_PASIVO];
    FirstStep(CANCEL_ORDERS, works, n);
    NextStep(one, CLOSE_POSITIONS, works, n);
    NextStep(two, SET_PASIVO, works, n);
    NextStep(three, HALT, works, n);
    hide Achieved;
    hide Attempts;
    assert one + [CLOSE_POSITIONS] == two && two + [SET_PASIVO] == three && three + [HALT] == CANONICAL;
    assert AllWork(works, n, 4) ==> works(n + 2) && works(n + 3);
  }

  lemma FirstStep(step: TripStep, works: nat -> bool, n: nat)
    ensures Attempts([step], works, n) == [Attempt(Trip(step), works(n))]
    ensures forall s :: Achieved(s, [step], works, n) <==> s == step && works(n)
  {
    assert Init([step]) == [];
  }

  lemma NextStep(steps: seq<TripStep>, step: TripStep, works: nat -> bool, n: nat)
    ensures Attempts(steps + [step], works, n) == Attempts(steps, works, n) + [Attempt(Trip(step), works(n + |steps|))]
    ensures forall s ::
      Achieved(s, steps + [step], works, n) <==>
      Achieved(s, steps, works, n) || (s == step && works(n + |steps|))
  {
    assert Init(steps + [step]) == steps;
  }

  // ---------- Opening the day ----------

  datatype OpenDayError = RepoUnavailable | SnapshotExists | BalanceUnavailable | InvalidBalance | SaveFailed

  /** Opening a day over what the repository holds; `balance` is the provider's answer, if it gave one. */
  function OpenDay(slot: Option<DrawdownSnapshot>, force: bool, loads: bool, balance: Option<real>, saves: bool,
                   now: int): Result<DrawdownSnapshot, OpenDayError> {
    if !force && !loads then Err(RepoUnavailable)
    else if !force && slot.Some? then Err(SnapshotExists)
    else if balance.None? then Err(BalanceUnavailable)
    else if balance.value <= 0.0 then Err(InvalidBalance)
    else if !saves then Err(SaveFailed)
    else Ok(DrawdownSnapshot(balance.value, balance.value, now))
  }

  /** A day opens exactly with a positive balance that can be saved, where none is stored or it is forced; the first
      thing missing is the error. */
  lemma DayOpensIff(slot: Option<DrawdownSnapshot>, force: bool, loads: bool, balance: Option<real>, saves: bool,
                    now: int)
    ensures var r, free := OpenDay(slot, force, loads, balance, saves, now), force || (loads && slot.None?);
      (r.Ok? <==> free && balance.Some? && balance.value > 0.0 && saves)
      && (r.Ok? ==> r.value.startingBalance == r.value.currentBalance == balance.value && r.value.takenAt == now)
      && (r == Err(RepoUnavailable) <==> !force && !loads)
      && (r == Err(SnapshotExists) <==> !force && loads && slot.Some?)
      && (r == Err(BalanceUnavailable) <==> free && balance.None?)
      && (r == Err(InvalidBalance) <==> free && balance.Some? && balance.value <= 0.0)
  {
  }

  class OpenDayUseCase {
    const ports: Ports

    constructor (ports: Ports)
      ensures this.ports == ports
    {
      this.ports := ports;
    }

    /** A day is opened over an existing one only when forced, and a failure leaves the stored day alone. */
    method Execute(force: bool, balance: Option<real>, now: int) returns (r: Result<DrawdownSnapshot, OpenDayError>)
      modifies ports`log, ports.repo
      ensures var n, loadCalls := |old(ports.log)|, if force then 0 else 1;
        r == OpenDay(old(ports.repo.slot), force, ports.works(n), balance, ports.works(n + loadCalls), now)
      ensures ports.repo.slot == if r.Ok? then Some(r.value) else old(ports.repo.slot)
      ensures r.Ok? ==> r.value.Valid() && r.value.DrawdownPct() == 0.0 && (force || old(ports.repo.slot).None?)
    {
      if !force {
        var up := ports.Connect(LoadSnapshot);
        if !up {
          return Err(RepoUnavailable);
        }
        var existing := ports.repo.Load();
        if existing.Some? {
          return Err(SnapshotExists);
        }
      }
      if balance.None? {
        return Err(BalanceUnavailable);
      }
      var snapshot := DrawdownSnapshot(balance.value, balance.value, now);
      if !snapshot.Valid() {
        return Err(InvalidBalance);
      }
      var up := ports.Connect(SaveSnapshot);
      if !up {
        return Err(SaveFailed);
      }
      ports.repo.Save(snapshot);
      r := Ok(snapshot);
    }
  }

  // ---------- Checking the drawdown ----------

  datatype CheckResult = CheckResult(snapshot: DrawdownSnapshot, state: DrawdownState, intradayPnl: real)

  /** The verdict of a check over what repository and journal hold, or why there is none. */
  function Check(b: Breaker, slot: Option<DrawdownSnapshot>, records: seq<TradeRecord>, current: Option<DrawdownState>,
                 loads: bool, journalUp: bool, now: int): Result<DrawdownState, CheckError> {
    if !loads then Err(SnapshotUnavailable)
    else if slot.None? then Err(SnapshotMissing)
    else if !journalUp then Err(JournalUnavailable)
    else Verdict(b, slot.value.startingBalance, PnlSince(records, slot.value.takenAt), current, now)
  }

  /** What a check reports besides the verdict: the balance that the day's realised P&L leaves. */
  function CheckReport(atOpen: DrawdownSnapshot, records: seq<TradeRecord>, state: DrawdownState,
                       now: int): CheckResult {
    var pnl := PnlSince(records, atOpen.takenAt);
    CheckResult(DrawdownSnapshot(atOpen.startingBalance, atOpen.startingBalance + pnl, now), state, pnl)
  }

  /** The report adds up, and the verdict is the breaker's on the balance reported. */
  lemma VerdictIsOnTheReport(b: Breaker, atOpen: DrawdownSnapshot, records: seq<TradeRecord>,
                             current: Option<DrawdownState>, state: DrawdownState, now: int)
    requires Check(b, Some(atOpen), records, current, true, true, now) == Ok(state)
    ensures var r := CheckReport(atOpen, records, state, now);
      r.snapshot.Valid() && b.Evaluate(r.snapshot, current) == state == r.state
      && r.snapshot.startingBalance == atOpen.startingBalance
      && r.snapshot.currentBalance - atOpen.startingBalance == r.intradayPnl
  {
    hide PnlSince;
  }

  class CheckDrawdownUseCase {
    const breaker: Breaker
    const ports: Ports
    const onTrip: TripCircuitBreakerUseCase?

    constructor (breaker: Breaker, ports: Ports, onTrip: TripCircuitBreakerUseCase?)
      requires breaker.Valid() && (onTrip != null ==> onTrip.ports == ports)
      ensures this.breaker == breaker && this.ports == ports && this.onTrip == onTrip
    {
      this.breaker, this.ports, this.onTrip := breaker, ports, onTrip;
    }

    /** Reports the verdict, and runs the trip exactly when it is TRIP; a trip with a failed step raises. */
    method Execute(current: Option<DrawdownState>, now: int) returns (r: Result<CheckResult, CheckError>)
      requires breaker.Valid() && (onTrip != null ==> onTrip.ports == ports)
      modifies ports, ports.repo
      ensures var n, slot, works := |old(ports.log)|, old(ports.repo.slot), ports.works;
        var verdict := Check(breaker, slot, ports.journal.records, current, works(n), works(n + 1), now);
        if verdict == Ok(TRIP) && onTrip != null then
          ports.log == old(ports.log) + [Attempt(LoadSnapshot, true), Attempt(ReadJournal, true)]
            + Attempts(onTrip.steps, works, n + 2)
          && ports.mode == (if Achieved(SET_PASIVO, onTrip.steps, works, n + 2) then PASIVO else old(ports.mode))
          && ports.repo.slot == (if Achieved(HALT, onTrip.steps, works, n + 2) then None else slot)
          && (if AllWork(works, n + 2, |onTrip.steps|) then r.Ok? && r.value.state == TRIP
              else r == Err(TripIncomplete))
        else
          ports.mode == old(ports.mode) && ports.repo.slot == slot
          && |ports.log| <= n + 2
          && (if verdict.Ok? then r.Ok? && r.value.state == verdict.value else r == Err(verdict.error))
      ensures r.Ok? ==> old(ports.repo.slot).Some?
      ensures r.Ok? ==>
        r.value == CheckReport(old(ports.repo.slot).value, ports.journal.records, r.value.state, now)
    {
      hide PnlSince;
      hide Achieved;
      hide Attempts;
      hide AllWork;
      hide Breaker.Evaluate;
      var up := ports.Connect(LoadSnapshot);
      if !up {
        return Err(SnapshotUnavailable);
      }
      var snapshot := ports.repo.Load();
      if snapshot.None? {
        return Err(SnapshotMissing);
      }
      up := ports.Connect(ReadJournal);
      if !up {
        return Err(JournalUnavailable);
      }
      var pnl := ports.journal.RealizedPnlSince(snapshot.value.takenAt);
      var today := DrawdownSnapshot(snapshot.value.startingBalance, snapshot.value.startingBalance + pnl, now);
      if !today.Valid() {
        return Err(InvalidSnapshot);
      }
      var state := breaker.Evaluate(today, current);
      if state == TRIP && onTrip != null {
        var trip := onTrip.Execute();
        if trip.None? {
          return Err(TripIncomplete);
        }
      }
      r := Ok(CheckResult(today, state, pnl));
    }
  }
}

/** Whole runs of the breaker's life: days opened, trades booked, drawdowns checked, trips, in any order. */
module BreakerLifecycle {
  import opened Common
  import opened CircuitBreaker

  /** Which steps of a trip worked. */
  datatype TripOutcome = TripOutcome(cancelled: bool, closed: bool, passive: bool, halted: bool)
  {
    predicate Complete() {
      cancelled && closed && passive && halted
    }
  }

  /** The stored snapshot, the journal and the mode; `trips` counts the trips that a check ran to completion. */
  datatype System = System(slot: Option<DrawdownSnapshot>, records: seq<TradeRecord>, mode: Mode, trips: nat)

  datatype Event =
    | Open(force: bool, loads: bool, balance: Option<real>, saves: bool, at: int)
    | Book(record: TradeRecord)
    | CheckDay(current: Option<DrawdownState>, loads: bool, journalUp: bool, trip: TripOutcome, at: int)
    | ManualTrip(trip: TripOutcome)

  /** Nothing stored yet; without a mode file the mode reads as backtesting. */
  const START := System(None, [], BACKTESTING, 0)

  function Tripped(s: System, trip: TripOutcome): System {
    s.(mode := if trip.passive then PASIVO else s.mode, slot := if trip.halted then None else s.slot)
  }

  /** This is what the canonical trip does to the mode and the snapshot when its calls begin after n others,
      and Complete says when it returns normally. */
  lemma TrippedIsCanonicalTrip(s: System, works: nat -> bool, n: nat)
    ensures var trip := TripOutcome(works(n), works(n + 1), works(n + 2), works(n + 3));
      Tripped(s, trip).mode == (if Achieved(SET_PASIVO, CANONICAL, works, n) then PASIVO else s.mode)
      && Tripped(s, trip).slot == (if Achieved(HALT, CANONICAL, works, n) then None else s.slot)
      && (trip.Complete() <==> AllWork(works, n, |CANONICAL|))
  {
    CanonicalTripEffects(works, n);
    assert AllWork(works, n, |CANONICAL|) ==> works(n) && works(n + 1) && works(n + 2) && works(n + 3);
  }

  /** The verdict that a check reports, if it gets as far as one. */
  function VerdictOf(s: System, b: Breaker, e: Event): Result<DrawdownState, CheckError>
    requires e.CheckDay?
  {
    Check(b, s.slot, s.records, e.current, e.loads, e.journalUp, e.at)
  }

  function Step(s: System, b: Breaker, e: Event): System {
    match e
    case Open(force, loads, balance, saves, at) =>
      var r := OpenDay(s.slot, force, loads, balance, saves, at);
      if r.Ok? then s.(slot := Some(r.value)) else s
    case Book(record) => s.(records := s.records + [record])
    case CheckDay(_, _, _, trip, _) =>
      if VerdictOf(s, b, e) != Ok(TRIP) then s
      else Tripped(s, trip).(trips := s.trips + if trip.Complete() then 1 else 0)
    case ManualTrip(trip) => Tripped(s, trip)
  }

  function After(es: seq<Event>, b: Breaker): System {
    if es == [] then START else Step(After(Init(es), b), b, Last(es))
  }

  /** Event h opens a day. */
  predicate OpensDay(es: seq<Event>, h: nat, b: Breaker) {
    h < |es| && es[h].Open?
    && OpenDay(After(es[..h], b).slot, es[h].force, es[h].loads, es[h].balance, es[h].saves, es[h].at).Ok?
  }

  /** Event k is a check that trips, and the trip completes. */
  predicate CompletesTrip(es: seq<Event>, k: nat, b: Breaker) {
    k < |es| && es[k].CheckDay? && VerdictOf(After(es[..k], b), b, es[k]) == Ok(TRIP) && es[k].trip.Complete()
  }

  lemma AfterNext(es: seq<Event>, k: nat, b: Breaker)
    requires k < |es|
    ensures After(es[..k + 1], b) == Step(After(es[..k], b), b, es[k])
  {
    assert Init(es[..k + 1]) == es[..k];
  }

  /** Once a trip's halt step has worked, no check yields a verdict, and nothing trips, until a day is opened;
      attempts to open one that fail change nothing. */
  lemma {:induction false} NoVerdictUntilTheNextOpen(es: seq<Event>, i: nat, k: nat, b: Breaker, check: Event)
    requires i <= k <= |es| && After(es[..i], b).slot.None? && check.CheckDay?
    requires forall h :: i <= h < k ==> !OpensDay(es, h, b)
    ensures After(es[..k], b).slot.None? && After(es[..k], b).trips == After(es[..i], b).trips
    ensures VerdictOf(After(es[..k], b), b, check) == Err(if check.loads then SnapshotMissing else SnapshotUnavailable)
    decreases k
  {
    if i < k {
      NoVerdictUntilTheNextOpen(es, i, k - 1, b, check);
      AfterNext(es, k - 1, b);
      assert !OpensDay(es, k - 1, b);
    }
  }

  /** At most one check-driven trip completes per opened day: between two of them a day was opened. */
  lemma OneTripPerOpenedDay(es: seq<Event>, i: nat, k: nat, b: Breaker)
    requires i < k && CompletesTrip(es, i, b) && CompletesTrip(es, k, b)
    ensures exists h :: i < h < k && OpensDay(es, h, b)
  {
    if forall h :: i < h < k ==> !OpensDay(es, h, b) {
      AfterNext(es, i, b);
      NoVerdictUntilTheNextOpen(es, i + 1, k, b, es[k]);
      assert false;
    }
  }

  /** The first day's trip needs an open too: no check trips before a day is opened. */
  lemma NoTripBeforeTheFirstOpen(es: seq<Event>, k: nat, b: Breaker)
    requires CompletesTrip(es, k, b)
    ensures exists h :: 0 <= h < k && OpensDay(es, h, b)
  {
    if forall h :: 0 <= h < k ==> !OpensDay(es, h, b) {
      assert es[..0] == [];
      NoVerdictUntilTheNextOpen(es, 0, k, b, es[k]);
      assert false;
    }
  }

  function TripsCompleted(es: seq<Event>, b: Breaker): nat {
    if es == [] then 0 else TripsCompleted(Init(es), b) + if CompletesTrip(es, |es| - 1, b) then 1 else 0
  }

  function DaysOpened(es: seq<Event>, b: Breaker): nat {
    if es == [] then 0 else DaysOpened(Init(es), b) + if OpensDay(es, |es| - 1, b) then 1 else 0
  }

  /** The counter counts the completed check-driven trips, and there are never more of them than days opened - while a
      day is stored, fewer. */
  lemma {:induction false} NoMoreTripsThanDays(es: seq<Event>, b: Breaker)
    ensures var s := After(es, b);
      s.trips == TripsCompleted(es, b) && s.trips + (if s.slot.Some? then 1 else 0) <= DaysOpened(es, b)
  {
    if es == [] {
    } else {
      NoMoreTripsThanDays(Init(es), b);
      assert es[..|es| - 1] == Init(es);
      hide Verdict;
      hide PnlSince;
      hide OpenDay;
    }
  }

  /** Event k runs a trip, by a check or by hand, whose third step works. */
  predicate SetsPassive(es: seq<Event>, k: nat, b: Breaker) {
    k < |es|
    && match es[k]
       case CheckDay(_, _, _, trip, _) => trip.passive && VerdictOf(After(es[..k], b), b, es[k]) == Ok(TRIP)
       case ManualTrip(trip) => trip.passive
       case _ => false
  }

  lemma SetsPassiveInPrefix(es: seq<Event>, b: Breaker)
    requires es != []
    ensures forall k: nat :: k < |es| - 1 ==> (SetsPassive(es, k, b) <==> SetsPassive(Init(es), k, b))
  {
    hide After;
    forall k: nat | k < |es| - 1
      ensures SetsPassive(es, k, b) <==> SetsPassive(Init(es), k, b)
    {
      assert Init(es)[..k] == es[..k] && Init(es)[k] == es[k];
    }
  }

  /** The mode is passive exactly when a trip has set it so, complete or not, and for good: days opened, trades
      booked and later checks never turn it back. */
  lemma {:induction false} PassiveIffATripSetIt(es: seq<Event>, b: Breaker)
    ensures After(es, b).mode == if exists k: nat :: SetsPassive(es, k, b) then PASIVO else START.mode
  {
    if es == [] {
    } else {
      PassiveIffATripSetIt(Init(es), b);
      SetsPassiveInPrefix(es, b);
      hide Check;
      assert es[..|es| - 1] == Init(es);
      assert SetsPassive(es, |es| - 1, b) ==> After(es, b).mode == PASIVO;
      assert forall k: nat :: SetsPassive(es, k, b) && k != |es| - 1 ==> SetsPassive(Init(es), k, b);
      assert forall k: nat :: SetsPassive(Init(es), k, b) ==> SetsPassive(es, k, b);
    }
  }

  /** After a check that tripped, the next check over the same books trips again exactly when the halt step
      failed - so a trip that could not close its positions but did halt is never tried again. */
  lemma RetriedIffHaltFailed(s: System, b: Breaker, first: Event, second: Event)
    requires first.CheckDay? && VerdictOf(s, b, first) == Ok(TRIP)
    requires second.CheckDay? && second.current == first.current && second.loads && second.journalUp
    ensures VerdictOf(Step(s, b, first), b, second) == (if first.trip.halted then Err(SnapshotMissing) else Ok(TRIP))
  {
    hide PnlSince;
    var day := s.slot.value;
    var pnl := PnlSince(s.records, day.takenAt);
    assert DrawdownSnapshot(day.startingBalance, day.startingBalance + pnl, first.at).DrawdownPct()
        == DrawdownSnapshot(day.startingBalance, day.startingBalance + pnl, second.at).DrawdownPct();
  }

  // ---------- Verdicts over runs ----------

  /** The records booked by the events from `from` on and before `end`, in order. */
  function Booked(es: seq<Event>, from: nat, end: nat): seq<TradeRecord>
    requires from <= end <= |es|
    decreases end
  {
    if from == end then [] else Booked(es, from, end - 1) + if es[end - 1].Book? then [es[end - 1].record] else []
  }

  lemma {:induction false} JournalIsBooked(es: seq<Event>, from: nat, k: nat, b: Breaker)
    requires from <= k <= |es|
    ensures After(es[..k], b).records == After(es[..from], b).records + Booked(es, from, k)
    decreases k
  {
    if from < k {
      JournalIsBooked(es, from, k - 1, b);
      AfterNext(es, k - 1, b);
      hide Check;
    }
  }

  /** The clock never goes back: what is booked before a day opens was closed before it, and what is booked
      afterwards was not. */
  predicate Timely(es: seq<Event>) {
    forall i, j :: 0 <= i < |es| && 0 <= j < |es| && es[i].Book? && es[j].Open? ==>
      if i < j then es[i].record.closedAt < es[j].at else es[i].record.closedAt >= es[j].at
  }

  lemma {:induction false} BookedTimes(es: seq<Event>, h: nat, from: nat, k: nat)
    requires Timely(es) && h < |es| && es[h].Open? && from <= k <= |es| && (k <= h || h < from)
    ensures forall r :: r in Booked(es, from, k) ==> if k <= h then r.closedAt < es[h].at else r.closedAt >= es[h].at
    decreases k
  {
    if from < k {
      BookedTimes(es, h, from, k - 1);
    }
  }

  /** A stored day is the one last opened. */
  lemma {:induction false} StoredDayIsTheLastOpened(es: seq<Event>, h: nat, k: nat, b: Breaker)
    requires h < k <= |es| && OpensDay(es, h, b) && forall j :: h < j < k ==> !OpensDay(es, j, b)
    ensures es[h].balance.Some? && es[h].balance.value > 0.0
    ensures var slot := After(es[..k], b).slot;
      slot.Some? ==> slot.value == DrawdownSnapshot(es[h].balance.value, es[h].balance.value, es[h].at)
    decreases k
  {
    AfterNext(es, k - 1, b);
    if h < k - 1 {
      StoredDayIsTheLastOpened(es, h, k - 1, b);
      assert !OpensDay(es, k - 1, b);
      hide Check;
    }
  }

  /** What a check sums up is what has been booked since the day was opened. */
  lemma DaysPnlIsBooked(es: seq<Event>, h: nat, k: nat, b: Breaker)
    requires h < k <= |es| && Timely(es) && es[h].Open?
    ensures PnlSince(After(es[..k], b).records, es[h].at) == SumPnl(Booked(es, h + 1, k))
  {
    JournalIsBooked(es, 0, h, b);
    JournalIsBooked(es, h, k, b);
    assert After(es[..0], b).records == [] by { assert es[..0] == []; }
    BookedTimes(es, h, 0, h);
    BookedTimes(es, h, h + 1, k);
    BookedFromNext(es, h, k);
    var earlier, later := Booked(es, 0, h), Booked(es, h + 1, k);
    assert [] + earlier == earlier;
    forall i | 0 <= i < |earlier|
      ensures earlier[i].closedAt < es[h].at
    {
      assert earlier[i] in earlier;
    }
    forall i | 0 <= i < |later|
      ensures later[i].closedAt >= es[h].at
    {
      assert later[i] in later;
    }
    PnlSinceSums(earlier, later, es[h].at);
  }

  lemma {:induction false} BookedFromNext(es: seq<Event>, h: nat, k: nat)
    requires h < k <= |es| && es[h].Open?
    ensures Booked(es, h, k) == Booked(es, h + 1, k)
    decreases k
  {
    if h + 1 < k {
      BookedFromNext(es, h, k - 1);
    } else {
      assert Booked(es, h, h) == [];
    }
  }

  /** The loss is at least the threshold's share of the start, and not more than all of it. */
  predicate LossTrips(b: Breaker, start: real, pnl: real) {
    -start <= pnl <= -(b.threshold * start)
  }

  lemma CheckTripsIff(b: Breaker, slot: Option<DrawdownSnapshot>, records: seq<TradeRecord>,
                      current: Option<DrawdownState>, loads: bool, journalUp: bool, now: int, start: real, at: int)
    requires b.Valid() && start > 0.0 && (slot.Some? ==> slot.value == DrawdownSnapshot(start, start, at))
    ensures Check(b, slot, records, current, loads, journalUp, now) == Ok(TRIP) <==>
      loads && journalUp && current != Some(HALTED) && slot.Some? && LossTrips(b, start, PnlSince(records, at))
  {
    VerdictByLoss(b, start, PnlSince(records, at), current, now);
    hide Verdict;
    hide PnlSince;
  }

  /** Over every run in which the clock does not go back: a check trips exactly when the ports answer, the state is
      not halted, the day is still stored, and what has been booked since it was opened with `start` adds up to a
      loss between the threshold and all of it. */
  lemma TripsIffTheDayLost(es: seq<Event>, h: nat, k: nat, b: Breaker)
    requires b.Valid() && Timely(es) && h < k < |es| && es[k].CheckDay?
    requires OpensDay(es, h, b) && forall j :: h < j < k ==> !OpensDay(es, j, b)
    ensures es[h].balance.Some?
    ensures var start, pnl := es[h].balance.value, SumPnl(Booked(es, h + 1, k));
      VerdictOf(After(es[..k], b), b, es[k]) == Ok(TRIP) <==>
      es[k].loads && es[k].journalUp && es[k].current != Some(HALTED) && After(es[..k], b).slot.Some?
      && LossTrips(b, start, pnl)
  {
    hide After;
    hide PnlSince;
    hide LossTrips;
    hide Check;
    StoredDayIsTheLastOpened(es, h, k, b);
    DaysPnlIsBooked(es, h, k, b);
    var s, e := After(es[..k], b), es[k];
    CheckTripsIff(b, s.slot, s.records, e.current, e.loads, e.journalUp, e.at, es[h].balance.value, es[h].at);
  }
}
