/** The historical extractor: paginated download into an append-only file with an atomically replaced checkpoint. */
module Extractor {
  import opened Common

  /** A candle as the exchange returns it; a row too short or not numeric has no body. */
  datatype Body = Body(open: real, high: real, low: real, close: real, volume: real)
  datatype Row = Row(timestamp: int, body: Option<Body>)

  predicate ValidRow(r: Row) {
    r.body.Some? && r.timestamp > 0
    && r.body.value.open > 0.0 && r.body.value.high > 0.0 && r.body.value.low > 0.0 && r.body.value.close > 0.0
    && r.body.value.volume >= 0.0 && r.body.value.high >= r.body.value.low
  }

  function Prices(b: Body): seq<real> {
    [b.open, b.high, b.low, b.close]
  }

  /** The faults for which a row is skipped. */
  lemma RowIsSkippedIff(r: Row)
    ensures !ValidRow(r) <==>
      r.body.None? || r.timestamp <= 0 || r.body.value.volume < 0.0 || r.body.value.high < r.body.value.low
      || exists k :: 0 <= k < 4 && Prices(r.body.value)[k] <= 0.0
  {
    if r.body.Some? {
      var ps := Prices(r.body.value);
      assert ps[0] == r.body.value.open && ps[1] == r.body.value.high && ps[2] == r.body.value.low
             && ps[3] == r.body.value.close;
    }
  }

  datatype Status = InProgress | Complete | Partial
  datatype Checkpoint = Checkpoint(status: Status, lastTimestamp: int)

  const LIMIT := 1000  // candles per request

  // ---------- The exchange's history ----------

  predicate Increasing(rows: seq<Row>) {
    forall i, j :: 0 <= i < j < |rows| ==> rows[i].timestamp < rows[j].timestamp
  }

  /** Index of the first row at or after `since`. */
  function FirstFrom(history: seq<Row>, since: int): (i: nat)
    ensures i <= |history|
    ensures forall k :: 0 <= k < i ==> history[k].timestamp < since
    ensures i < |history| ==> history[i].timestamp >= since
  {
    if history == [] || history[0].timestamp >= since then 0 else 1 + FirstFrom(history[1..], since)
  }

  /** A batch: at most n and at most LIMIT consecutive rows from the first one at or after `since`. */
  function Batch(history: seq<Row>, since: int, n: nat): seq<Row> {
    var i := FirstFrom(history, since);
    history[i..i + Min(Min(n, LIMIT), |history| - i)]
  }

  function ValidOnly(rows: seq<Row>): seq<Row> {
    if rows == [] then [] else ValidOnly(Init(rows)) + if ValidRow(Last(rows)) then [Last(rows)] else []
  }

  /** The valid rows with a timestamp in [from, to), in order. */
  function Select(rows: seq<Row>, from: int, to: int): seq<Row> {
    if rows == [] then []
    else Select(Init(rows), from, to)
         + if ValidRow(Last(rows)) && from <= Last(rows).timestamp < to then [Last(rows)] else []
  }

  /** Where the next request starts after a batch: one past the last valid row, or one on if there is none. */
  function NextSince(since: int, batch: seq<Row>): int {
    if ValidOnly(batch) == [] then since + 1 else Last(ValidOnly(batch)).timestamp + 1
  }

  // ---------- Facts about selections ----------

  lemma {:induction false} SelectConcat(x: seq<Row>, y: seq<Row>, from: int, to: int)
    ensures Select(x + y, from, to) == Select(x, from, to) + Select(y, from, to)
  {
    if y == [] {
      assert x + y == x;
    } else {
      assert Init(x + y) == x + Init(y) && Last(x + y) == Last(y);
      SelectConcat(x, Init(y), from, to);
    }
  }

  lemma {:induction false} SelectNone(x: seq<Row>, from: int, to: int)
    requires forall r :: r in x && ValidRow(r) ==> !(from <= r.timestamp < to)
    ensures Select(x, from, to) == []
  {
    if x != [] {
      assert Last(x) in x;
      SelectNone(Init(x), from, to);
    }
  }

  lemma {:induction false} SelectAll(x: seq<Row>, from: int, to: int)
    requires forall r :: r in x && ValidRow(r) ==> from <= r.timestamp < to
    ensures Select(x, from, to) == ValidOnly(x)
  {
    if x != [] {
      assert Last(x) in x;
      SelectAll(Init(x), from, to);
    }
  }

  lemma {:induction false} SelectMembers(x: seq<Row>, from: int, to: int)
    ensures forall r :: r in Select(x, from, to) <==> r in x && ValidRow(r) && from <= r.timestamp < to
  {
    if x != [] {
      SelectMembers(Init(x), from, to);
      assert x == Init(x) + [Last(x)];
    }
  }

  lemma {:induction false} ValidOnlyMembers(x: seq<Row>)
    ensures forall r :: r in ValidOnly(x) <==> r in x && ValidRow(r)
    ensures Increasing(x) ==> Increasing(ValidOnly(x))
  {
    if x != [] {
      ValidOnlyMembers(Init(x));
      assert x == Init(x) + [Last(x)];
      var v := ValidOnly(Init(x));
      if Increasing(x) {
        forall i | 0 <= i < |v|
          ensures v[i].timestamp < Last(x).timestamp
        {
          assert v[i] in Init(x);
        }
      }
    }
  }

  /** Consecutive ranges of an increasing history concatenate. */
  lemma {:induction false} SelectSplits(h: seq<Row>, a: int, b: int, c: int)
    requires Increasing(h) && a <= b <= c
    ensures Select(h, a, b) + Select(h, b, c) == Select(h, a, c)
  {
    if h != [] {
      SelectSplits(Init(h), a, b, c);
      if Last(h).timestamp < b {
        assert forall r :: r in Init(h) ==> r.timestamp < b;
        SelectNone(Init(h), b, c);
      }
    }
  }

  lemma {:induction false} SelectIsIncreasing(h: seq<Row>, from: int, to: int)
    requires Increasing(h)
    ensures Increasing(Select(h, from, to))
  {
    if h != [] {
      SelectIsIncreasing(Init(h), from, to);
      SelectMembers(Init(h), from, to);
      var s := Select(Init(h), from, to);
      forall i | 0 <= i < |s|
        ensures s[i].timestamp < Last(h).timestamp
      {
        assert s[i] in Init(h);
      }
    }
  }

  lemma IncreasingBounds(rows: seq<Row>)
    requires rows != [] && Increasing(rows)
    ensures forall r :: r in rows ==> rows[0].timestamp <= r.timestamp <= Last(rows).timestamp
  {
    forall r | r in rows
      ensures rows[0].timestamp <= r.timestamp <= Last(rows).timestamp
    {
      var k :| 0 <= k < |rows| && rows[k] == r;
    }
  }

  /** The valid rows of a batch lie between its start and the next request's start. */
  lemma BatchRange(batch: seq<Row>, since: int)
    requires batch != [] && Increasing(batch) && batch[0].timestamp >= since
    ensures since < NextSince(since, batch) <= Last(batch).timestamp + 1
    ensures forall r :: r in batch && ValidRow(r) ==> since <= r.timestamp < NextSince(since, batch)
  {
    hide ValidRow;
    var v := ValidOnly(batch);
    ValidOnlyMembers(batch);
    IncreasingBounds(batch);
    if v != [] {
      IncreasingBounds(v);
      assert Last(v) in v && Last(v) in batch;
      forall r | r in batch && ValidRow(r)
        ensures r.timestamp < NextSince(since, batch)
      {
        assert r in v;
      }
    } else {
      assert forall r :: r in batch && ValidRow(r) ==> r in v;
      assert Last(batch) in batch;
    }
  }

  lemma BlockIsSelection(before: seq<Row>, batch: seq<Row>, after: seq<Row>, since: int)
    requires batch != [] && Increasing(batch) && batch[0].timestamp >= since
    requires forall r :: r in before ==> r.timestamp < since
    requires forall r :: r in after ==> r.timestamp > Last(batch).timestamp
    ensures ValidOnly(batch) == Select(before + (batch + after), since, NextSince(since, batch))
  {
    var next := NextSince(since, batch);
    BatchRange(batch, since);
    SelectNone(before, since, next);
    SelectAll(batch, since, next);
    SelectNone(after, since, next);
    SelectConcat(batch, after, since, next);
    SelectConcat(before, batch + after, since, next);
  }

  /** A batch is a slice of the history: everything before it is earlier than the request, everything after
      it later than its last row. */
  lemma BatchIsSlice(history: seq<Row>, since: int, n: nat) returns (before: seq<Row>, after: seq<Row>)
    requires Increasing(history) && Batch(history, since, n) != []
    ensures var batch := Batch(history, since, n);
      history == before + (batch + after) && Increasing(batch) && batch[0].timestamp >= since
      && (forall r :: r in before ==> r.timestamp < since)
      && (forall r :: r in after ==> r.timestamp > Last(batch).timestamp)
  {
    hide ValidRow;
    var i, batch := FirstFrom(history, since), Batch(history, since, n);
    var j := i + |batch|;
    before, after := history[..i], history[j..];
    assert batch == history[i..j];
    hide Batch;
    hide FirstFrom;
    SliceIsOrdered(history, i, j);
  }

  lemma SliceIsOrdered(history: seq<Row>, i: nat, j: nat)
    requires Increasing(history) && i < j <= |history|
    ensures Increasing(history[i..j])
    ensures forall r :: r in history[..i] ==> exists k :: 0 <= k < i && history[k] == r
    ensures forall r :: r in history[j..] ==> r.timestamp > Last(history[i..j]).timestamp
  {
    assert Last(history[i..j]) == history[j - 1];
    forall r | r in history[j..]
      ensures r.timestamp > history[j - 1].timestamp
    {
      var k :| 0 <= k < |history[j..]| && history[j..][k] == r;
      assert r == history[j + k];
    }
  }

  /** What a batch contributes is exactly the valid rows between its start and the next request's start. */
  lemma BatchIsSelection(history: seq<Row>, since: int, n: nat)
    requires Increasing(history) && Batch(history, since, n) != []
    ensures since < NextSince(since, Batch(history, since, n))
    ensures ValidOnly(Batch(history, since, n)) == Select(history, since, NextSince(since, Batch(history, since, n)))
  {
    hide ValidRow;
    hide Increasing;
    var before, after := BatchIsSlice(history, since, n);
    var batch := Batch(history, since, n);
    hide Batch;
    BatchRange(batch, since);
    BlockIsSelection(before, batch, after, since);
  }

  // ---------- One uninterrupted download ----------

  /** What the exchange answers to a request: a failure, or up to n rows. */
  datatype Answer = Unreachable | UpTo(n: nat)

  /** The last of the requests before..now, made from `reached`, brought no row, or it and the one before failed. */
  predicate NothingMore(history: seq<Row>, answers: nat -> Answer, before: nat, now: nat, reached: int) {
    before < now
    && match answers(now - 1)
       case UpTo(n) => Batch(history, reached, n) == []
       case Unreachable => before < now - 1 && answers(now - 2).Unreachable?
  }

  /** From request n on, never two failures in a row, and at least one row whenever there is one. */
  ghost predicate Reliable(answers: nat -> Answer, n: nat) {
    forall i: nat :: i >= n ==> AnswersOrRecovers(answers, i)
  }

  predicate AnswersOrRecovers(answers: nat -> Answer, i: nat) {
    match answers(i)
    case UpTo(n) => n > 0
    case Unreachable => !answers(i + 1).Unreachable?
  }

  /** Every valid candle of [from, to) is in the file. */
  ghost predicate Covered(file: seq<Row>, history: seq<Row>, from: int, to: int) {
    forall r :: r in history && ValidRow(r) && from <= r.timestamp < to ==> r in file
  }

  lemma NoMoreRows(history: seq<Row>, since: int, n: nat)
    requires Batch(history, since, n) == [] && n > 0
    ensures forall r :: r in history ==> r.timestamp < since
  {
    assert FirstFrom(history, since) == |history|;
  }

  /** A reliable exchange leaves out no valid candle before the end. */
  lemma ReliableCoversAll(history: seq<Row>, answers: nat -> Answer, before: nat, now: nat, from: int, reached: int,
                          endMs: int, file: seq<Row>, stored: seq<Row>)
    requires Reliable(answers, before) && (reached < endMs ==> NothingMore(history, answers, before, now, reached))
    requires file == stored + Select(history, from, reached)
    ensures Covered(file, history, from, endMs)
  {
    hide ValidRow;
    SelectMembers(history, from, reached);
    if reached < endMs {
      assert AnswersOrRecovers(answers, now - 1);
      assert before < now - 1 ==> AnswersOrRecovers(answers, now - 2);
      NoMoreRows(history, reached, answers(now - 1).n);
    }
  }

  /** Only an in-progress checkpoint is resumed from. */
  function SessionStart(checkpoint: Option<Checkpoint>, resume: bool, startMs: int): int {
    if resume && checkpoint.Some? && checkpoint.value.status == InProgress then checkpoint.value.lastTimestamp
    else startMs
  }

  class Downloader {
    const history: seq<Row>
    const answers: nat -> Answer
    var requests: nat
    var file: seq<Row>
    var checkpoint: Option<Checkpoint>

    constructor (history: seq<Row>, answers: nat -> Answer, file: seq<Row>, checkpoint: Option<Checkpoint>)
      requires Increasing(history)
      ensures this.history == history && this.answers == answers && this.file == file && this.checkpoint == checkpoint
      ensures requests == 0
    {
      this.history, this.answers, this.file, this.checkpoint := history, answers, file, checkpoint;
      requests := 0;
    }

    method Fetch(since: int) returns (batch: Option<seq<Row>>)
      modifies this`requests
      ensures requests == old(requests) + 1
      ensures batch == match answers(old(requests))
                       case Unreachable => None
                       case UpTo(n) => Some(Batch(history, since, n))
    {
      batch := match answers(requests)
        case Unreachable => None
        case UpTo(n) => Some(Batch(history, since, n));
      requests := requests + 1;
    }

    /** One retry after a failed request: the answer to the last request made, or two failures in a row. */
    method FetchWithRetry(since: int) returns (batch: Option<seq<Row>>)
      modifies this`requests
      ensures old(requests) < requests <= old(requests) + 2
      ensures batch.Some? ==> answers(requests - 1).UpTo?
      ensures batch.Some? ==> batch.value == Batch(history, since, answers(requests - 1).n)
      ensures batch.None? ==> requests == old(requests) + 2
                              && answers(old(requests)).Unreachable? && answers(old(requests) + 1).Unreachable?
    {
      batch := Fetch(since);
      if batch.None? {
        batch := Fetch(since);
      }
    }

    function StartingPoint(startMs: int, resume: bool): int
      reads this
    {
      SessionStart(checkpoint, resume, startMs)
    }

    /** Appends exactly the valid candles between the starting point and `reached`, once each and in order,
        and records in the checkpoint how far it got and whether that was far enough. It stops short of the end
        only when its last request, from where it got, was answered by nothing or failed twice. */
    method Download(startMs: int, endMs: int, resume: bool) returns (reached: int, total: nat)
      requires Increasing(history)
      modifies this
      ensures old(StartingPoint(startMs, resume)) <= reached
      ensures file == old(file) + Select(history, old(StartingPoint(startMs, resume)), reached)
      ensures total == (if resume then |file| else |file| - |old(file)|)
      ensures checkpoint == Some(Checkpoint(if reached >= endMs then Complete else Partial, reached))
      ensures reached < endMs ==> NothingMore(history, answers, old(requests), requests, reached)
      ensures Reliable(answers, old(requests)) ==> Covered(file, history, old(StartingPoint(startMs, resume)), endMs)
    {
      hide ValidRow;
      hide Select;
      hide ValidOnly;
      hide Batch;
      hide NextSince;
      hide Increasing;
      hide Covered;
      hide Reliable;
      var since := StartingPoint(startMs, resume);
      if !resume {
        checkpoint := Some(Checkpoint(InProgress, startMs));
      }
      ghost var from := since;
      SelectNone(history, from, from);
      total := if resume then |file| else 0;
      while since < endMs
        invariant from <= since && old(requests) <= requests
        invariant file == old(file) + Select(history, from, since)
        invariant total == if resume then |file| else |file| - |old(file)|
        decreases endMs - since
      {
        var batch := FetchWithRetry(since);
        if batch.None? || batch.value == [] {
          assert NothingMore(history, answers, old(requests), requests, since);
          break;
        }
        var rows, lastTs := Convert(batch.value, since);
        ContributionOfBatch(history, from, since, batch.value);
        Regroup(old(file), Select(history, from, since), rows);
        if rows == [] {
          since := lastTs + 1;
          continue;
        }
        file := file + rows;
        total := total + |rows|;
        since := lastTs + 1;
        checkpoint := Some(Checkpoint(InProgress, since));
      }
      checkpoint := Some(Checkpoint(if since >= endMs then Complete else Partial, since));
      reached := since;
      if Reliable(answers, old(requests)) {
        ReliableCoversAll(history, answers, old(requests), requests, from, reached, endMs, file, old(file));
      }
    }
  }

  /** Keeps the valid rows and remembers the timestamp of the last one. */
  method Convert(batch: seq<Row>, since: int) returns (rows: seq<Row>, lastTs: int)
    ensures rows == ValidOnly(batch) && lastTs + 1 == NextSince(since, batch)
  {
    rows, lastTs := [], since;
    for k := 0 to |batch|
      invariant rows == ValidOnly(batch[..k])
      invariant lastTs == if rows == [] then since else Last(rows).timestamp
    {
      assert Init(batch[..k + 1]) == batch[..k];
      if ValidRow(batch[k]) {
        rows := rows + [batch[k]];
        lastTs := batch[k].timestamp;
      }
    }
    assert batch[..|batch|] == batch;
  }

  lemma ContributionOfBatch(history: seq<Row>, from: int, since: int, batch: seq<Row>)
    requires Increasing(history) && from <= since && batch != [] && exists n :: batch == Batch(history, since, n)
    ensures since < NextSince(since, batch)
    ensures Select(history, from, since) + ValidOnly(batch) == Select(history, from, NextSince(since, batch))
  {
    var n :| batch == Batch(history, since, n);
    BatchIsSelection(history, since, n);
    SelectSplits(history, from, since, NextSince(since, batch));
  }

  // ---------- Crashes and restarts, as steps ----------

  /** Where the process is: not running, about to request from `since`, or between appending a batch and
      writing the checkpoint that covers it. */
  datatype Process = Stopped | Requesting(since: int) | Appended(next: int)

  /** `file` and `checkpoint` survive a crash. The rows of the file are accounted for as `committed`, in
      batches whose checkpoint was written, `orphaned`, whose write was interrupted, or `pending`. */
  datatype System = System(file: seq<Row>, checkpoint: Option<Checkpoint>, process: Process,
                           committed: seq<Row>, orphaned: seq<Row>, pending: seq<Row>)

  datatype Event =
    | Begin(resume: bool)
    | Receive(n: nat)      // the exchange answers the next request with up to n rows
    | GiveUp               // it cannot be reached, twice
    | WriteCheckpoint
    | Crash

  const EMPTY := System([], None, Stopped, [], [], [])

  function Stop(s: System, since: int, endMs: int): System {
    s.(process := Stopped, checkpoint := Some(Checkpoint(if since >= endMs then Complete else Partial, since)))
  }

  /** A batch without a valid row moves on without touching file or checkpoint. */
  function Append(s: System, rows: seq<Row>, next: int): System {
    if rows == [] then s.(process := Requesting(next))
    else s.(file := s.file + rows, pending := rows, process := Appended(next))
  }

  /** An event that does not apply where the process is changes nothing. */
  function Step(s: System, e: Event, history: seq<Row>, startMs: int, endMs: int): System {
    match (s.process, e)
    case (Stopped, Begin(resume)) =>
      if !resume then s.(process := Requesting(startMs), checkpoint := Some(Checkpoint(InProgress, startMs)))
      else if s.checkpoint.Some? && s.checkpoint.value.status == InProgress
        then s.(process := Requesting(s.checkpoint.value.lastTimestamp))
      else s.(process := Requesting(startMs))
    case (Requesting(since), Receive(n)) =>
      if since >= endMs || Batch(history, since, n) == [] then Stop(s, since, endMs)
      else Append(s, ValidOnly(Batch(history, since, n)), NextSince(since, Batch(history, since, n)))
    case (Requesting(since), GiveUp) => Stop(s, since, endMs)
    case (Appended(next), WriteCheckpoint) =>
      s.(checkpoint := Some(Checkpoint(InProgress, next)), process := Requesting(next),
         committed := s.committed + s.pending, pending := [])
    case (_, Crash) => s.(process := Stopped, orphaned := s.orphaned + s.pending, pending := [])
    case _ => s
  }

  function After(es: seq<Event>, history: seq<Row>, startMs: int, endMs: int): System {
    if es == [] then EMPTY else Step(After(Init(es), history, startMs, endMs), Last(es), history, startMs, endMs)
  }

  // ---------- Nothing is missing, in any run ----------

  ghost predicate NothingMissing(s: System, history: seq<Row>, startMs: int) {
    (s.checkpoint.Some? ==> startMs <= s.checkpoint.value.lastTimestamp)
    && (s.checkpoint.Some? ==> Covered(s.file, history, startMs, s.checkpoint.value.lastTimestamp))
    && match s.process
       case Stopped => true
       case Requesting(since) => startMs <= since && Covered(s.file, history, startMs, since)
       case Appended(next) => startMs <= next && Covered(s.file, history, startMs, next)
  }

  lemma BatchCovers(file: seq<Row>, history: seq<Row>, startMs: int, since: int, n: nat)
    requires Increasing(history) && Covered(file, history, startMs, since) && Batch(history, since, n) != []
    ensures since < NextSince(since, Batch(history, since, n))
    ensures Covered(file + ValidOnly(Batch(history, since, n)), history, startMs,
                    NextSince(since, Batch(history, since, n)))
  {
    BatchIsSelection(history, since, n);
    SelectMembers(history, since, NextSince(since, Batch(history, since, n)));
  }

  /** Over every run - crashes anywhere, restarts with or without resume, gaps and failures of the exchange -
      no valid candle before the checkpoint's last timestamp is missing from the file. */
  lemma {:induction false} NoCandleIsMissing(es: seq<Event>, history: seq<Row>, startMs: int, endMs: int)
    requires Increasing(history)
    ensures NothingMissing(After(es, history, startMs, endMs), history, startMs)
  {
    hide ValidRow;
    hide Increasing;
    if es != [] {
      NoCandleIsMissing(Init(es), history, startMs, endMs);
      var s := After(Init(es), history, startMs, endMs);
      if s.process.Requesting? && Last(es).Receive? && Batch(history, s.process.since, Last(es).n) != [] {
        BatchCovers(s.file, history, startMs, s.process.since, Last(es).n);
      }
    }
  }

  // ---------- Duplicates come only from interrupted checkpoints ----------

  /** A download begun once afresh and from then on only resumed from an in-progress checkpoint. */
  predicate Disciplined(es: seq<Event>, history: seq<Row>, startMs: int, endMs: int) {
    es == [] || (Disciplined(Init(es), history, startMs, endMs) &&
      var s := After(Init(es), history, startMs, endMs);
      Last(es).Begin? && s.process == Stopped ==>
        if Last(es).resume then s.checkpoint.Some? && s.checkpoint.value.status == InProgress else s.checkpoint.None?)
  }

  /** How far the checkpoint reaches. */
  function Frontier(s: System, startMs: int): int {
    if s.checkpoint.Some? then s.checkpoint.value.lastTimestamp else startMs
  }

  ghost predicate Accounted(s: System, history: seq<Row>, startMs: int) {
    multiset(s.file) == multiset(s.committed) + multiset(s.orphaned) + multiset(s.pending)
    && (s.orphaned == [] ==> s.file == s.committed + s.pending)
    && startMs <= Frontier(s, startMs) && s.committed == Select(history, startMs, Frontier(s, startMs))
    && match s.process
       case Stopped => s.pending == []
       case Requesting(since) =>
         s.pending == [] && s.checkpoint.Some? && Frontier(s, startMs) <= since
         && Select(history, Frontier(s, startMs), since) == []
       case Appended(next) =>
         s.checkpoint.Some? && Frontier(s, startMs) <= next && s.pending == Select(history, Frontier(s, startMs), next)
  }

  lemma StepKeepsAccounts(s: System, e: Event, history: seq<Row>, startMs: int, endMs: int)
    requires Increasing(history) && Accounted(s, history, startMs)
    requires e.Begin? && s.process == Stopped ==>
      if e.resume then s.checkpoint.Some? && s.checkpoint.value.status == InProgress else s.checkpoint.None?
    ensures Accounted(Step(s, e, history, startMs, endMs), history, startMs)
  {
    hide Increasing;
    hide ValidRow;
    hide Select;
    hide Batch;
    hide Accounted;
    match (s.process, e)
    case (Stopped, Begin(resume)) =>
      BeginKeepsAccounts(s, resume, history, startMs, endMs);
    case (Requesting(since), Receive(n)) =>
      ReceiveStepKeepsAccounts(s, since, n, history, startMs, endMs);
    case (Requesting(since), GiveUp) =>
      StopKeepsAccounts(s, since, history, startMs, endMs);
    case (Appended(next), WriteCheckpoint) =>
      WriteKeepsAccounts(s, next, history, startMs);
    case (_, Crash) =>
      CrashStepKeepsAccounts(s, history, startMs);
    case _ =>
  }

  lemma BeginKeepsAccounts(s: System, resume: bool, history: seq<Row>, startMs: int, endMs: int)
    requires Accounted(s, history, startMs) && s.process == Stopped
    requires if resume then s.checkpoint.Some? && s.checkpoint.value.status == InProgress else s.checkpoint.None?
    ensures Accounted(Step(s, Begin(resume), history, startMs, endMs), history, startMs)
  {
    hide ValidRow;
    SelectNone(history, Frontier(s, startMs), Frontier(s, startMs));
    SelectNone(history, startMs, startMs);
    hide Select;
  }

  lemma CrashStepKeepsAccounts(s: System, history: seq<Row>, startMs: int)
    requires Accounted(s, history, startMs)
    ensures Accounted(s.(process := Stopped, orphaned := s.orphaned + s.pending, pending := []), history, startMs)
  {
    hide Select;
    CrashKeepsAccounts(s);
  }

  lemma StopKeepsAccounts(s: System, since: int, history: seq<Row>, startMs: int, endMs: int)
    requires Increasing(history) && Accounted(s, history, startMs) && s.process == Requesting(since)
    ensures Accounted(Stop(s, since, endMs), history, startMs)
  {
    hide Increasing;
    hide ValidRow;
    SelectSplits(history, startMs, Frontier(s, startMs), since);
  }

  lemma ReceiveStepKeepsAccounts(s: System, since: int, n: nat, history: seq<Row>, startMs: int, endMs: int)
    requires Increasing(history) && Accounted(s, history, startMs) && s.process == Requesting(since)
    ensures Accounted(Step(s, Receive(n), history, startMs, endMs), history, startMs)
  {
    var batch := Batch(history, since, n);
    assert Frontier(s, startMs) <= since;
    hide Accounted;
    hide Select;
    hide ValidOnly;
    hide Increasing;
    hide Batch;
    hide Append;
    hide Stop;
    hide NextSince;
    hide Frontier;
    if since >= endMs || batch == [] {
      StopKeepsAccounts(s, since, history, startMs, endMs);
    } else {
      ContributionOfBatch(history, Frontier(s, startMs), since, batch);
      ReceiveKeepsAccounts(s, since, ValidOnly(batch), NextSince(since, batch), history, startMs);
    }
  }

  lemma ReceiveKeepsAccounts(s: System, since: int, rows: seq<Row>, next: int, history: seq<Row>, startMs: int)
    requires Accounted(s, history, startMs) && s.process == Requesting(since)
    requires since < next
      && Select(history, Frontier(s, startMs), since) + rows == Select(history, Frontier(s, startMs), next)
    ensures Accounted(Append(s, rows, next), history, startMs)
  {
    hide Select;
    if rows != [] {
      AppendKeepsAccounts(s, rows);
      assert [] + rows == rows;
    }
  }

  lemma WriteKeepsAccounts(s: System, next: int, history: seq<Row>, startMs: int)
    requires Increasing(history) && Accounted(s, history, startMs) && s.process == Appended(next)
    ensures Accounted(s.(checkpoint := Some(Checkpoint(InProgress, next)), process := Requesting(next),
                         committed := s.committed + s.pending, pending := []), history, startMs)
  {
    hide Increasing;
    hide ValidRow;
    SelectSplits(history, startMs, Frontier(s, startMs), next);
    SelectNone(history, next, next);
    assert s.committed + s.pending + [] == s.committed + s.pending;
  }

  lemma AppendKeepsAccounts(s: System, rows: seq<Row>)
    requires multiset(s.file) == multiset(s.committed) + multiset(s.orphaned) + multiset(s.pending) && s.pending == []
    requires s.orphaned == [] ==> s.file == s.committed + s.pending
    ensures multiset(s.file + rows) == multiset(s.committed) + multiset(s.orphaned) + multiset(rows)
    ensures s.orphaned == [] ==> s.file + rows == s.committed + rows
  {
  }

  lemma CrashKeepsAccounts(s: System)
    requires multiset(s.file) == multiset(s.committed) + multiset(s.orphaned) + multiset(s.pending)
    requires s.orphaned == [] ==> s.file == s.committed + s.pending
    ensures multiset(s.file) == multiset(s.committed) + multiset(s.orphaned + s.pending) + multiset([])
    ensures s.orphaned + s.pending == [] ==> s.file == s.committed + []
  {
    assert multiset(s.orphaned + s.pending) == multiset(s.orphaned) + multiset(s.pending);
  }

  lemma {:induction false} RunKeepsAccounts(es: seq<Event>, history: seq<Row>, startMs: int, endMs: int)
    requires Increasing(history) && Disciplined(es, history, startMs, endMs)
    ensures Accounted(After(es, history, startMs, endMs), history, startMs)
  {
    if es == [] {
      SelectNone(history, startMs, startMs);
    } else {
      RunKeepsAccounts(Init(es), history, startMs, endMs);
      StepKeepsAccounts(After(Init(es), history, startMs, endMs), Last(es), history, startMs, endMs);
    }
  }

  lemma {:induction false} IncreasingCountsOnce(rows: seq<Row>, r: Row)
    requires Increasing(rows)
    ensures multiset(rows)[r] == if r in rows then 1 else 0
  {
    if rows != [] {
      assert rows == Init(rows) + [Last(rows)];
      IncreasingCountsOnce(Init(rows), r);
    }
  }

  /** Across any crashes and in-progress resumes, a valid candle before the checkpoint is in the file once,
      plus once for every interrupted checkpoint whose batch held it, plus once if its batch is pending. */
  lemma DuplicatesAreInterruptedBatches(es: seq<Event>, history: seq<Row>, startMs: int, endMs: int, r: Row)
    requires Increasing(history) && Disciplined(es, history, startMs, endMs)
    ensures var s := After(es, history, startMs, endMs);
      multiset(s.file)[r] == multiset(s.orphaned)[r] + multiset(s.pending)[r]
        + if r in history && ValidRow(r) && startMs <= r.timestamp < Frontier(s, startMs) then 1 else 0
  {
    var s := After(es, history, startMs, endMs);
    RunKeepsAccounts(es, history, startMs, endMs);
    SelectIsIncreasing(history, startMs, Frontier(s, startMs));
    SelectMembers(history, startMs, Frontier(s, startMs));
    IncreasingCountsOnce(s.committed, r);
    assert multiset(s.file)[r] == (multiset(s.committed) + multiset(s.orphaned) + multiset(s.pending))[r];
  }

  lemma {:induction false} NoCrashNoOrphan(es: seq<Event>, history: seq<Row>, startMs: int, endMs: int)
    requires Crash !in es
    ensures After(es, history, startMs, endMs).orphaned == []
  {
    if es != [] {
      assert es == Init(es) + [Last(es)];
      NoCrashNoOrphan(Init(es), history, startMs, endMs);
    }
  }

  /** Without crashes the file is the valid candles from the start on, once each, in order. */
  lemma CrashFreeFileIsStrictlyIncreasing(es: seq<Event>, history: seq<Row>, startMs: int, endMs: int)
    requires Increasing(history) && Disciplined(es, history, startMs, endMs) && Crash !in es
    ensures var s := After(es, history, startMs, endMs);
      Increasing(s.file) && exists to :: s.file == Select(history, startMs, to)
  {
    hide ValidRow;
    hide Step;
    var s := After(es, history, startMs, endMs);
    RunKeepsAccounts(es, history, startMs, endMs);
    NoCrashNoOrphan(es, history, startMs, endMs);
    var to := if s.process.Appended? then s.process.next else Frontier(s, startMs);
    SelectSplits(history, startMs, Frontier(s, startMs), to);
    assert s.committed + [] == s.committed;
    SelectIsIncreasing(history, startMs, to);
    hide Increasing;
    hide Select;
    assert s.file == Select(history, startMs, to);
  }

  // ---------- How often a candle is stored, in any run ----------

  /** What one session has read: from where it began to where its last batch took it. */
  datatype Range = Range(from: int, to: int)

  /** One range a session: a start of the process begins one, each batch extends the last. */
  function Ranges(es: seq<Event>, history: seq<Row>, startMs: int, endMs: int): seq<Range> {
    if es == [] then []
    else
      var s, t := After(Init(es), history, startMs, endMs), After(es, history, startMs, endMs);
      NextRanges(Ranges(Init(es), history, startMs, endMs), s.process, t.process)
  }

  function NextRanges(rs: seq<Range>, before: Process, now: Process): seq<Range> {
    if now == Stopped then rs
    else if before == Stopped || rs == [] then rs + [Range(Position(now), Position(now))]
    else Init(rs) + [Range(Last(rs).from, Position(now))]
  }

  function Position(p: Process): int
    requires p != Stopped
  {
    match p
    case Requesting(since) => since
    case Appended(next) => next
  }

  /** The valid candles of every range, one range after the other. */
  function Pieces(history: seq<Row>, rs: seq<Range>): seq<Row> {
    if rs == [] then [] else Pieces(history, Init(rs)) + Select(history, Last(rs).from, Last(rs).to)
  }

  /** How many of the ranges hold the timestamp. */
  function Holding(rs: seq<Range>, ts: int): nat {
    if rs == [] then 0 else Holding(Init(rs), ts) + if Last(rs).from <= ts < Last(rs).to then 1 else 0
  }

  ghost predicate InPieces(s: System, rs: seq<Range>, history: seq<Row>) {
    s.file == Pieces(history, rs)
    && (s.process != Stopped ==> rs != [] && Last(rs).from <= Last(rs).to == Position(s.process))
  }

  lemma NewPiece(history: seq<Row>, rs: seq<Range>, from: int, to: int)
    ensures Pieces(history, rs + [Range(from, to)]) == Pieces(history, rs) + Select(history, from, to)
  {
    assert Init(rs + [Range(from, to)]) == rs;
  }

  lemma StepAddsToPieces(s: System, e: Event, rs: seq<Range>, history: seq<Row>, startMs: int, endMs: int)
    requires Increasing(history) && InPieces(s, rs, history)
    ensures var t := Step(s, e, history, startMs, endMs); InPieces(t, NextRanges(rs, s.process, t.process), history)
  {
    hide ValidRow;
    hide Increasing;
    hide Select;
    hide Batch;
    hide ValidOnly;
    hide NextSince;
    var t := Step(s, e, history, startMs, endMs);
    if s.process == Stopped {
      if t.process != Stopped {
        var from := Position(t.process);
        SelectNone(history, from, from);
        NewPiece(history, rs, from, from);
      }
    } else if t.process != Stopped {
      var from := Last(rs).from;
      NewPiece(history, Init(rs), from, Position(t.process));
      if s.process.Requesting? && e.Receive? {
        var since := s.process.since;
        ContributionOfBatch(history, from, since, Batch(history, since, e.n));
        Regroup(Pieces(history, Init(rs)), Select(history, from, since), ValidOnly(Batch(history, since, e.n)));
      }
    }
  }

  /** Whatever crashes, gives up and starts again, with or without resume: the file is what the sessions read, one
      after the other. */
  lemma {:induction false} FileIsWhatSessionsRead(es: seq<Event>, history: seq<Row>, startMs: int, endMs: int)
    requires Increasing(history)
    ensures InPieces(After(es, history, startMs, endMs), Ranges(es, history, startMs, endMs), history)
  {
    if es == [] {
    } else {
      FileIsWhatSessionsRead(Init(es), history, startMs, endMs);
      StepAddsToPieces(After(Init(es), history, startMs, endMs), Last(es), Ranges(Init(es), history, startMs, endMs),
                       history, startMs, endMs);
    }
  }

  lemma {:induction false} PiecesCount(history: seq<Row>, rs: seq<Range>, r: Row)
    requires Increasing(history)
    ensures multiset(Pieces(history, rs))[r] == if r in history && ValidRow(r) then Holding(rs, r.timestamp) else 0
  {
    hide ValidRow;
    hide Increasing;
    if rs == [] {
    } else {
      var from, to := Last(rs).from, Last(rs).to;
      PiecesCount(history, Init(rs), r);
      SelectIsIncreasing(history, from, to);
      SelectMembers(history, from, to);
      IncreasingCountsOnce(Select(history, from, to), r);
    }
  }

  /** Why a crash can store candles twice: the batch that was appended before the crash is read and appended again by
      the resumed session, because the checkpoint still points to its start. */
  lemma InterruptedBatchIsReadAgain(s: System, since: int, n: nat, history: seq<Row>, startMs: int, endMs: int)
    requires s.process == Requesting(since) && s.checkpoint == Some(Checkpoint(InProgress, since)) && since < endMs
    requires ValidOnly(Batch(history, since, n)) != []
    ensures var appended := Step(s, Receive(n), history, startMs, endMs);
      var crashed := Step(appended, Crash, history, startMs, endMs);
      var resumed := Step(crashed, Begin(true), history, startMs, endMs);
      var again, rows := Step(resumed, Receive(n), history, startMs, endMs), ValidOnly(Batch(history, since, n));
      crashed.process == Stopped && crashed.file == appended.file == s.file + rows
      && crashed.checkpoint == s.checkpoint && crashed.orphaned == s.orphaned + rows
      && again.file == s.file + rows + rows && again.checkpoint == s.checkpoint
  {
    hide Batch;
    assert Batch(history, since, n) != [];
    hide ValidOnly;
    hide NextSince;
  }

  /** A batch without a valid row is passed over: nothing is stored, and no checkpoint is written. */
  lemma EmptyBatchIsPassedOver(s: System, since: int, n: nat, history: seq<Row>, startMs: int, endMs: int)
    requires s.process == Requesting(since) && since < endMs && Batch(history, since, n) != []
    requires ValidOnly(Batch(history, since, n)) == []
    ensures var t := Step(s, Receive(n), history, startMs, endMs);
      t == s.(process := Requesting(since + 1)) && Step(t, WriteCheckpoint, history, startMs, endMs) == t
  {
    hide Batch;
    hide ValidOnly;
  }

  /** After any run a valid candle of the history is in the file once for every session whose range held it, and
      nothing else is in the file. */
  lemma StoredOncePerSession(es: seq<Event>, history: seq<Row>, startMs: int, endMs: int, r: Row)
    requires Increasing(history)
    ensures multiset(After(es, history, startMs, endMs).file)[r]
            == if r in history && ValidRow(r) then Holding(Ranges(es, history, startMs, endMs), r.timestamp) else 0
  {
    FileIsWhatSessionsRead(es, history, startMs, endMs);
    PiecesCount(history, Ranges(es, history, startMs, endMs), r);
  }

  // ---------- Resuming after an incomplete download ----------

  /** The state after further events. */
  function Continued(s: System, es: seq<Event>, history: seq<Row>, startMs: int, endMs: int): System {
    if es == [] then s else Step(Continued(s, Init(es), history, startMs, endMs), Last(es), history, startMs, endMs)
  }

  lemma {:induction false} AfterContinues(es: seq<Event>, more: seq<Event>, history: seq<Row>, startMs: int, endMs: int)
    ensures After(es + more, history, startMs, endMs)
      == Continued(After(es, history, startMs, endMs), more, history, startMs, endMs)
  {
    if more == [] {
      assert es + more == es;
    } else {
      assert Init(es + more) == es + Init(more);
      AfterContinues(es, Init(more), history, startMs, endMs);
    }
  }

  /** The events of one session that nothing interrupts. */
  predicate Uninterrupted(es: seq<Event>) {
    forall k :: 0 <= k < |es| ==> !es[k].Begin? && !es[k].Crash?
  }

  /** How far a session has read. */
  function Reached(s: System, startMs: int): int {
    match s.process
    case Stopped => Frontier(s, startMs)
    case Requesting(since) => since
    case Appended(next) => next
  }

  /** Complete when the session got as far as the end. */
  function FinalCheckpoint(s: System, startMs: int, endMs: int): Checkpoint {
    Checkpoint(if Reached(s, startMs) >= endMs then Complete else Partial, Reached(s, startMs))
  }

  function StartOf(s: System, resume: bool, startMs: int): int {
    SessionStart(s.checkpoint, resume, startMs)
  }

  /** A session that has stopped by itself has done what one call of Download does: the file has grown by the
      valid candles from the starting point to where it got, and the checkpoint says so. */
  lemma {:induction false} SessionIsADownload(s: System, resume: bool, es: seq<Event>, history: seq<Row>, startMs: int,
                                              endMs: int)
    requires Increasing(history) && s.process == Stopped && Uninterrupted(es)
    ensures var from := StartOf(s, resume, startMs);
      var t := Continued(Step(s, Begin(resume), history, startMs, endMs), es, history, startMs, endMs);
      from <= Reached(t, startMs) && t.file == s.file + Select(history, from, Reached(t, startMs))
      && (t.process == Stopped ==> t.checkpoint == Some(FinalCheckpoint(t, startMs, endMs)))
  {
    var from, begun := StartOf(s, resume, startMs), Step(s, Begin(resume), history, startMs, endMs);
    if es == [] {
      SelectNone(history, from, from);
      assert s.file + [] == s.file;
    } else {
      SessionIsADownload(s, resume, Init(es), history, startMs, endMs);
      var t := Continued(begun, Init(es), history, startMs, endMs);
      assert !Last(es).Begin? && !Last(es).Crash?;
      hide Continued;
      SessionStep(s.file, t, Last(es), from, history, startMs, endMs);
    }
  }

  lemma SessionStep(file: seq<Row>, t: System, e: Event, from: int, history: seq<Row>, startMs: int, endMs: int)
    requires Increasing(history) && !e.Begin? && !e.Crash? && from <= Reached(t, startMs)
    requires t.file == file + Select(history, from, Reached(t, startMs))
    ensures var u := Step(t, e, history, startMs, endMs);
      from <= Reached(u, startMs) && u.file == file + Select(history, from, Reached(u, startMs))
      && (u.process == Stopped ==> u == t || u.checkpoint == Some(FinalCheckpoint(u, startMs, endMs)))
  {
    hide ValidRow;
    if t.process.Requesting? && e.Receive? && t.process.since < endMs && Batch(history, t.process.since, e.n) != [] {
      var batch := Batch(history, t.process.since, e.n);
      ContributionOfBatch(history, from, t.process.since, batch);
      hide Batch;
      hide Increasing;
      hide Select;
      Regroup(file, Select(history, from, t.process.since), ValidOnly(batch));
    }
  }

  lemma Regroup(file: seq<Row>, x: seq<Row>, y: seq<Row>)
    ensures file + x + y == file + (x + y)
    ensures y == [] ==> file + (x + y) == file + x
  {
  }

  /** The event ends a session that has got as far as `reached`: the exchange cannot be reached, or has no more. */
  predicate EndsSession(e: Event, history: seq<Row>, reached: int) {
    e == GiveUp || (e.Receive? && Batch(history, reached, e.n) == [])
  }

  /** A session that stops short of the end does so for a reason. */
  lemma {:induction false} SessionStopsForAReason(s: System, resume: bool, es: seq<Event>, history: seq<Row>,
                                                  startMs: int, endMs: int)
    requires Increasing(history) && s.process == Stopped && Uninterrupted(es)
    ensures var t := Continued(Step(s, Begin(resume), history, startMs, endMs), es, history, startMs, endMs);
      t.process == Stopped && Reached(t, startMs) < endMs ==>
        exists k :: 0 <= k < |es| && EndsSession(es[k], history, Reached(t, startMs))
  {
    if es != [] {
      var begun := Step(s, Begin(resume), history, startMs, endMs);
      SessionStopsForAReason(s, resume, Init(es), history, startMs, endMs);
      var u, t := Continued(begun, Init(es), history, startMs, endMs), Continued(begun, es, history, startMs, endMs);
      hide Batch;
      hide NextSince;
      hide ValidOnly;
      if t.process == Stopped && Reached(t, startMs) < endMs {
        if u.process == Stopped {
          var k :| 0 <= k < |Init(es)| && EndsSession(Init(es)[k], history, Reached(u, startMs));
          assert es[k] == Init(es)[k] && t == u;
        } else {
          assert EndsSession(es[|es| - 1], history, Reached(t, startMs));
        }
      }
    }
  }

  predicate StoredOnce(file: seq<Row>) {
    forall i, j :: 0 <= i < j < |file| ==> file[i] != file[j]
  }

  /** A file that reaches to `last`, extended from `from` on: a candle is stored twice exactly when there is one in
      between. */
  lemma ExtensionStoresOnceIff(history: seq<Row>, start: int, last: int, from: int, to: int)
    requires Increasing(history) && start <= from <= last <= to
    ensures StoredOnce(Select(history, start, last) + Select(history, from, to)) <==> Select(history, from, last) == []
  {
    hide ValidRow;
    SelectSplits(history, start, from, last);
    SelectSplits(history, from, last, to);
    SelectSplits(history, start, last, to);
    SelectIsIncreasing(history, start, to);
    hide Select;
    hide Increasing;
    OverlapIff(Select(history, start, from), Select(history, from, last), Select(history, last, to));
  }

  lemma OverlapIff(x: seq<Row>, y: seq<Row>, z: seq<Row>)
    requires Increasing(x + y + z)
    ensures StoredOnce(x + y + (y + z)) <==> y == []
  {
    if y == [] {
      assert x + y + (y + z) == x + y + z;
      IncreasingIsStoredOnce(x + y + z);
    } else {
      TwiceIsNotOnce(x, y, z);
    }
  }

  lemma IncreasingIsStoredOnce(rows: seq<Row>)
    requires Increasing(rows)
    ensures StoredOnce(rows)
  {
  }

  lemma TwiceIsNotOnce(x: seq<Row>, y: seq<Row>, z: seq<Row>)
    requires y != []
    ensures !StoredOnce(x + y + (y + z))
  {
    var file := x + y + (y + z);
    assert file[|x|] == y[0] && file[|x| + |y|] == y[0];
  }

  /** A download in one or more sessions, crashes included as long as none has interrupted a checkpoint, then
      another session that reads at least as far: no candle is stored twice exactly when that one resumes from an
      in-progress checkpoint, or nothing was stored before. Starting without resume, like resuming after a download
      that gave up or was complete, reads from the start again into the same file. */
  lemma RestartStoresNothingTwiceIff(es: seq<Event>, resume: bool, more: seq<Event>, history: seq<Row>, startMs: int,
                                     endMs: int)
    requires Increasing(history) && Disciplined(es, history, startMs, endMs) && Uninterrupted(more)
    requires var s := After(es, history, startMs, endMs); s.process == Stopped && s.checkpoint.Some? && s.orphaned == []
    requires Reached(After(es + [Begin(resume)] + more, history, startMs, endMs), startMs)
             >= After(es, history, startMs, endMs).checkpoint.value.lastTimestamp
    ensures var s := After(es, history, startMs, endMs);
      StoredOnce(After(es + [Begin(resume)] + more, history, startMs, endMs).file) <==>
      (resume && s.checkpoint.value.status == InProgress) || s.file == []
  {
    var s := After(es, history, startMs, endMs);
    var last, from := s.checkpoint.value.lastTimestamp, StartOf(s, resume, startMs);
    var t := After(es + [Begin(resume)] + more, history, startMs, endMs);
    OneMore(es, Begin(resume), history, startMs, endMs);
    AfterContinues(es + [Begin(resume)], more, history, startMs, endMs);
    SessionIsADownload(s, resume, more, history, startMs, endMs);
    FileBeforeRestart(es, history, startMs, endMs);
    ExtensionStoresOnceIff(history, startMs, last, from, Reached(t, startMs));
    SelectNone(history, last, last);
  }

  lemma FileBeforeRestart(es: seq<Event>, history: seq<Row>, startMs: int, endMs: int)
    requires Increasing(history) && Disciplined(es, history, startMs, endMs)
    requires var s := After(es, history, startMs, endMs); s.process == Stopped && s.checkpoint.Some? && s.orphaned == []
    ensures var s := After(es, history, startMs, endMs);
      startMs <= s.checkpoint.value.lastTimestamp
      && s.file == Select(history, startMs, s.checkpoint.value.lastTimestamp)
  {
    RunKeepsAccounts(es, history, startMs, endMs);
    var s := After(es, history, startMs, endMs);
    assert s.committed + [] == s.committed;
  }

  /** Such restarts exist: giving up and resuming, with no crash at all, stores a candle twice. */
  lemma ResumeAfterGivingUpDuplicates(r: Row)
    requires ValidRow(r) && r.timestamp == 5
    ensures exists es :: Crash !in es && multiset(After(es, [r], 5, 9).file)[r] == 2
  {
    hide ValidRow;
    var h := [r];
    OneRowBatch(r);
    var e1 := [] + [Begin(false)];
    var e2 := e1 + [Receive(1)];
    var e3 := e2 + [WriteCheckpoint];
    var e4 := e3 + [GiveUp];
    var e5 := e4 + [Begin(true)];
    var e6 := e5 + [Receive(1)];
    assert After([], h, 5, 9) == EMPTY;
    OneMore([], Begin(false), h, 5, 9);
    OneMore(e1, Receive(1), h, 5, 9);
    OneMore(e2, WriteCheckpoint, h, 5, 9);
    OneMore(e3, GiveUp, h, 5, 9);
    OneMore(e4, Begin(true), h, 5, 9);
    OneMore(e5, Receive(1), h, 5, 9);
    hide Batch;
    hide ValidOnly;
    hide NextSince;
    hide After;
    assert After(e2, h, 5, 9) == System(h, Some(Checkpoint(InProgress, 5)), Appended(6), [], [], h);
    assert After(e4, h, 5, 9).checkpoint == Some(Checkpoint(Partial, 6)) && After(e4, h, 5, 9).file == h;
    assert After(e5, h, 5, 9).process == Requesting(5);
    assert After(e6, h, 5, 9).file == h + h;
    assert Crash !in e6;
  }

  lemma OneRowBatch(r: Row)
    requires ValidRow(r) && r.timestamp == 5
    ensures Batch([r], 5, 1) == [r] && ValidOnly([r]) == [r] && NextSince(5, [r]) == 6
  {
    assert Init([r]) == [];
  }

  lemma OneMore(es: seq<Event>, e: Event, history: seq<Row>, startMs: int, endMs: int)
    ensures After(es + [e], history, startMs, endMs)
      == Step(After(es, history, startMs, endMs), e, history, startMs, endMs)
  {
    assert Init(es + [e]) == es;
  }
}
