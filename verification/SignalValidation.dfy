/** The signal validator: confidence, age, deduplication and a cooldown per symbol. */
module SignalValidation {
  import opened Common
  import Positions

  datatype ExecutionSignal = ExecutionSignal(id: string, side: Positions.OrderSide, confidence: real, symbol: string,
                                             price: Option<real>, timestamp: int)

  datatype RejectionReason = CONFIDENCE_TOO_LOW | COOLDOWN_ACTIVE | DUPLICATE_SIGNAL_ID | SIGNAL_EXPIRED

  /** Times are seconds. */
  datatype Limits = Limits(minConfidence: real, cooldown: int, maxAge: int)
  {
    /** The constructor's checks. */
    predicate Valid() {
      0.0 <= minConfidence <= 1.0 && cooldown >= 0 && maxAge >= 0
    }
  }

  /** A signal and the moment it is validated. */
  datatype Arrival = Arrival(signal: ExecutionSignal, now: int)

  /** What the validator remembers. */
  datatype Memory = Memory(seenIds: set<string>, lastSignalTime: map<string, int>)

  const FRESH := Memory({}, map[])

  function Verdict(l: Limits, m: Memory, a: Arrival): Option<RejectionReason> {
    if a.signal.id in m.seenIds then Some(DUPLICATE_SIGNAL_ID)
    else if a.now - a.signal.timestamp > l.maxAge then Some(SIGNAL_EXPIRED)
    else if a.signal.confidence < l.minConfidence then Some(CONFIDENCE_TOO_LOW)
    else if a.signal.symbol in m.lastSignalTime && a.now - m.lastSignalTime[a.signal.symbol] < l.cooldown
      then Some(COOLDOWN_ACTIVE)
    else None
  }

  function Remember(l: Limits, m: Memory, a: Arrival): Memory {
    if Verdict(l, m, a).Some? then m
    else Memory(m.seenIds + {a.signal.id}, m.lastSignalTime[a.signal.symbol := a.now])
  }

  class SignalValidator {
    const limits: Limits
    var seenIds: set<string>
    var lastSignalTime: map<string, int>

    function Remembered(): Memory
      reads this
    {
      Memory(seenIds, lastSignalTime)
    }

    constructor (limits: Limits)
      requires limits.Valid()
      ensures this.limits == limits && Remembered() == FRESH
    {
      this.limits, seenIds, lastSignalTime := limits, {}, map[];
    }

    method Validate(signal: ExecutionSignal, now: int) returns (rejection: Option<RejectionReason>)
      modifies this
      ensures rejection == Verdict(limits, old(Remembered()), Arrival(signal, now))
      ensures Remembered() == Remember(limits, old(Remembered()), Arrival(signal, now))
    {
      if signal.id in seenIds {
        return Some(DUPLICATE_SIGNAL_ID);
      }
      if now - signal.timestamp > limits.maxAge {
        return Some(SIGNAL_EXPIRED);
      }
      if signal.confidence < limits.minConfidence {
        return Some(CONFIDENCE_TOO_LOW);
      }
      if signal.symbol in lastSignalTime {
        if now - lastSignalTime[signal.symbol] < limits.cooldown {
          return Some(COOLDOWN_ACTIVE);
        }
      }
      seenIds := seenIds + {signal.id};
      lastSignalTime := lastSignalTime[signal.symbol := now];
      rejection := None;
    }
  }

  // ---------- Runs ----------

  function After(arrivals: seq<Arrival>, l: Limits): Memory {
    if arrivals == [] then FRESH else Remember(l, After(Init(arrivals), l), Last(arrivals))
  }

  /** The arrivals that were accepted, in order. */
  function Accepted(arrivals: seq<Arrival>, l: Limits): seq<Arrival> {
    if arrivals == [] then []
    else Accepted(Init(arrivals), l)
         + if Verdict(l, After(Init(arrivals), l), Last(arrivals)).None? then [Last(arrivals)] else []
  }

  /** What may be accepted after the given acceptances, in terms of them alone. */
  predicate Acceptable(l: Limits, accepted: seq<Arrival>, a: Arrival) {
    a.now - a.signal.timestamp <= l.maxAge && a.signal.confidence >= l.minConfidence
    && forall k :: 0 <= k < |accepted| ==>
         accepted[k].signal.id != a.signal.id
         && (accepted[k].signal.symbol == a.signal.symbol ==> a.now - accepted[k].now >= l.cooldown)
  }

  /** The ids seen are those accepted, and the time remembered for a symbol is that of its latest acceptance,
      none of which is later. */
  ghost predicate Recalls(m: Memory, accepted: seq<Arrival>) {
    (forall id :: id in m.seenIds <==> exists k :: 0 <= k < |accepted| && accepted[k].signal.id == id)
    && (forall k :: 0 <= k < |accepted| ==>
          accepted[k].signal.symbol in m.lastSignalTime
          && accepted[k].now <= m.lastSignalTime[accepted[k].signal.symbol])
    && (forall symbol :: symbol in m.lastSignalTime ==>
          exists k ::
            0 <= k < |accepted| && accepted[k].signal.symbol == symbol && accepted[k].now == m.lastSignalTime[symbol])
  }

  lemma VerdictByAcceptances(l: Limits, m: Memory, accepted: seq<Arrival>, a: Arrival)
    requires l.Valid() && Recalls(m, accepted)
    ensures Verdict(l, m, a).None? <==> Acceptable(l, accepted, a)
  {
    if a.signal.id in m.seenIds {
      var k :| 0 <= k < |accepted| && accepted[k].signal.id == a.signal.id;
    } else {
      forall k | 0 <= k < |accepted|
        ensures accepted[k].signal.id != a.signal.id
      {
      }
    }
    if a.signal.symbol in m.lastSignalTime {
      var k :| 0 <= k < |accepted| && accepted[k].signal.symbol == a.signal.symbol
        && accepted[k].now == m.lastSignalTime[a.signal.symbol];
    }
  }

  lemma RememberingRecalls(l: Limits, m: Memory, accepted: seq<Arrival>, a: Arrival)
    requires l.Valid() && Recalls(m, accepted) && Verdict(l, m, a).None?
    ensures Recalls(Remember(l, m, a), accepted + [a])
  {
    var m', more := Remember(l, m, a), accepted + [a];
    assert more[|accepted|] == a;
    forall id
      ensures id in m'.seenIds <==> exists k :: 0 <= k < |more| && more[k].signal.id == id
    {
      if id in m.seenIds {
        var k :| 0 <= k < |accepted| && accepted[k].signal.id == id;
        assert more[k].signal.id == id;
      }
    }
    forall symbol | symbol in m'.lastSignalTime
      ensures exists k :: 0 <= k < |more| && more[k].signal.symbol == symbol && more[k].now == m'.lastSignalTime[symbol]
    {
      if symbol != a.signal.symbol {
        var k :| 0 <= k < |accepted| && accepted[k].signal.symbol == symbol
          && accepted[k].now == m.lastSignalTime[symbol];
        assert more[k] == accepted[k];
      }
    }
  }

  lemma {:induction false} MemoryRecallsAcceptances(arrivals: seq<Arrival>, l: Limits)
    requires l.Valid()
    ensures Recalls(After(arrivals, l), Accepted(arrivals, l))
  {
    if arrivals != [] {
      MemoryRecallsAcceptances(Init(arrivals), l);
      if Verdict(l, After(Init(arrivals), l), Last(arrivals)).None? {
        RememberingRecalls(l, After(Init(arrivals), l), Accepted(Init(arrivals), l), Last(arrivals));
      } else {
        assert Accepted(arrivals, l) == Accepted(Init(arrivals), l);
      }
    }
  }

  /** After any run, whatever the clock did, a signal is accepted exactly when it is young and confident enough,
      its id has not been accepted before, and every acceptance for its symbol is a cooldown ago. */
  lemma AcceptedIffAcceptable(arrivals: seq<Arrival>, l: Limits, a: Arrival)
    requires l.Valid()
    ensures Verdict(l, After(arrivals, l), a).None? <==> Acceptable(l, Accepted(arrivals, l), a)
  {
    MemoryRecallsAcceptances(arrivals, l);
    VerdictByAcceptances(l, After(arrivals, l), Accepted(arrivals, l), a);
  }

  /** So over a whole run accepted ids are distinct, and two acceptances for one symbol a cooldown apart. */
  lemma {:induction false} AcceptancesAreDistinctAndSpaced(arrivals: seq<Arrival>, l: Limits)
    requires l.Valid()
    ensures forall k :: 0 <= k < |Accepted(arrivals, l)| ==>
      Acceptable(l, Accepted(arrivals, l)[..k], Accepted(arrivals, l)[k])
  {
    if arrivals != [] {
      AcceptancesAreDistinctAndSpaced(Init(arrivals), l);
      AcceptedIffAcceptable(Init(arrivals), l, Last(arrivals));
      var before, all := Accepted(Init(arrivals), l), Accepted(arrivals, l);
      forall k | 0 <= k < |all|
        ensures Acceptable(l, all[..k], all[k])
      {
        assert k < |before| ==> all[..k] == before[..k];
        assert k == |before| ==> all[..k] == before;
      }
    }
  }
}
