/** Bracket orders: a market entry, a stop loss with retries, a take profit, and an emergency close, against an
    exchange where any call may fail. */
module BracketOrder {
  import opened Common
  import Positions

  type OrderSide = Positions.OrderSide

  function Opposite(side: OrderSide): OrderSide {
    if side == Positions.Buy then Positions.Sell else Positions.Buy
  }

  datatype Order =
    | Market(side: OrderSide, amount: real)
    | StopMarket(side: OrderSide, amount: real, stopPrice: real)        // reduce only
    | TakeProfitMarket(side: OrderSide, amount: real, stopPrice: real)  // reduce only

  datatype OrderStatus = NEW | PARTIALLY_FILLED | FILLED | CANCELLED | REJECTED | EXPIRED

  datatype OrderResult = OrderResult(filledAmount: real, avgPrice: Option<real>, status: OrderStatus)

  /** What becomes of a call: the order is taken and confirmed, refused, or taken while the confirmation is
      lost. The last two raise alike. */
  datatype Answer = Accepted(result: OrderResult) | Rejected | AckLost

  datatype Call = Call(order: Order, answer: Answer)
  {
    predicate Raised() {
      !answer.Accepted?
    }

    predicate Taken() {
      !answer.Rejected?
    }
  }

  class Exchange {
    const answers: nat -> Answer
    var calls: seq<Call>

    constructor (answers: nat -> Answer)
      ensures this.answers == answers && calls == []
    {
      this.answers, calls := answers, [];
    }

    method CreateOrder(order: Order) returns (result: Option<OrderResult>)
      modifies this
      ensures calls == old(calls) + [Call(order, answers(|old(calls)|))]
      ensures result == if Last(calls).Raised() then None else Some(Last(calls).answer.result)
    {
      var answer := answers(|calls|);
      calls := calls + [Call(order, answer)];
      result := if answer.Accepted? then Some(answer.result) else None;
    }
  }

  // ---------- What the exchange holds after some calls ----------

  function Signed(side: OrderSide, amount: real): real {
    if side == Positions.Buy then amount else -amount
  }

  /** The position that the market orders taken so far add up to. */
  function Net(calls: seq<Call>): real {
    if calls == [] then 0.0
    else
      var c := Last(calls);
      Net(Init(calls)) + if c.order.Market? && c.Taken() then Signed(c.order.side, c.order.amount) else 0.0
  }

  /** The number of stop orders the exchange holds. */
  function LiveStops(calls: seq<Call>): nat {
    if calls == [] then 0
    else LiveStops(Init(calls)) + if Last(calls).order.StopMarket? && Last(calls).Taken() then 1 else 0
  }

  /** The number of stop orders it holds that the caller believes failed. */
  function LostStops(calls: seq<Call>): nat {
    if calls == [] then 0
    else LostStops(Init(calls)) + if Last(calls).order.StopMarket? && Last(calls).answer.AckLost? then 1 else 0
  }

  function StopCalls(calls: seq<Call>): nat {
    if calls == [] then 0 else StopCalls(Init(calls)) + if Last(calls).order.StopMarket? then 1 else 0
  }

  lemma {:induction false} HoldingsAdd(x: seq<Call>, y: seq<Call>)
    ensures Net(x + y) == Net(x) + Net(y)
    ensures LiveStops(x + y) == LiveStops(x) + LiveStops(y) && LostStops(x + y) == LostStops(x) + LostStops(y)
    ensures StopCalls(x + y) == StopCalls(x) + StopCalls(y)
  {
    if y == [] {
      assert x + y == x;
    } else {
      assert Init(x + y) == x + Init(y);
      HoldingsAdd(x, Init(y));
    }
  }

  lemma HoldingsOfOne(c: Call)
    ensures Net([c]) == if c.order.Market? && c.Taken() then Signed(c.order.side, c.order.amount) else 0.0
    ensures c.order.Market? && c.Taken() && c.order.side == Positions.Buy ==> Net([c]) == c.order.amount
    ensures c.order.Market? && c.Taken() && c.order.side == Positions.Sell ==> Net([c]) == -c.order.amount
    ensures LiveStops([c]) == if c.order.StopMarket? && c.Taken() then 1 else 0
    ensures LostStops([c]) == if c.order.StopMarket? && c.answer.AckLost? then 1 else 0
    ensures StopCalls([c]) == if c.order.StopMarket? then 1 else 0
  {
    assert Init([c]) == [];
  }

  /** Every call is for this order and raised. */
  predicate AllRaised(calls: seq<Call>, order: Order) {
    forall k :: 0 <= k < |calls| ==> calls[k].order == order && calls[k].Raised()
  }

  lemma {:induction false} HoldingsOfRaisedStops(calls: seq<Call>, stop: Order)
    requires stop.StopMarket? && AllRaised(calls, stop)
    ensures Net(calls) == 0.0 && LiveStops(calls) == LostStops(calls) && StopCalls(calls) == |calls|
  {
    if calls != [] {
      HoldingsOfRaisedStops(Init(calls), stop);
    }
  }

  // ---------- Placing a composite order ----------

  datatype CompositeOrder = CompositeOrder(side: OrderSide, amount: real, slPrice: Option<real>, tpPrice: Option<real>)
  {
    /** The constructor's check. */
    predicate Valid() {
      amount > 0.0
    }

    function Size(): (r: real)
      ensures r >= 0.0 && (r == amount || r == -amount)
    {
      if amount < 0.0 then -amount else amount
    }

    function Entry(): Order {
      Market(side, Size())
    }

    function Stop(): Order
      requires slPrice.Some?
    {
      StopMarket(Opposite(side), Size(), slPrice.value)
    }

    function TakeProfit(): Order
      requires tpPrice.Some?
    {
      TakeProfitMarket(Opposite(side), Size(), tpPrice.value)
    }
  }

  datatype ClientError = EntryFailed | SlPlacementFailed(entry: OrderResult) | EmergencyFailed

  /** The take profit is tried once and its outcome ignored. */
  predicate TakeProfitTried(calls: seq<Call>, o: CompositeOrder) {
    if o.tpPrice.None? then calls == [] else |calls| == 1 && calls[0].order == o.TakeProfit()
  }

  /** Failed attempts at the stop, then one that succeeded, within the number allowed. */
  predicate StopPlaced(calls: seq<Call>, o: CompositeOrder, retries: int) {
    if o.slPrice.None? || retries <= 0 then calls == []
    else 0 < |calls| <= retries && AllRaised(Init(calls), o.Stop()) && Last(calls).order == o.Stop()
         && !Last(calls).Raised()
  }

  /** The calls of a composite order, by how it ends. */
  ghost predicate Composed(calls: seq<Call>, o: CompositeOrder, retries: int, r: Result<OrderResult, ClientError>) {
    match r
    case Err(EntryFailed) => |calls| == 1 && calls[0].order == o.Entry() && calls[0].Raised()
    case Err(SlPlacementFailed(entry)) =>
      o.slPrice.Some? && retries > 0 && |calls| == 1 + retries
      && calls[0] == Call(o.Entry(), Accepted(entry)) && AllRaised(calls[1..], o.Stop())
    case Err(EmergencyFailed) => false
    case Ok(entry) =>
      exists stops, tp :: calls == [Call(o.Entry(), Accepted(entry))] + stops + tp
                          && StopPlaced(stops, o, retries) && TakeProfitTried(tp, o)
  }

  // The same, computed from the exchange's answers: call number n is answered by answers(n).

  /** How many of up to `retries` attempts, the first one being call n, fail before one is confirmed. */
  function Failures(answers: nat -> Answer, n: nat, retries: nat): (k: nat)
    ensures k <= retries && (forall i :: n <= i < n + k ==> !answers(i).Accepted?)
      && (k < retries ==> answers(n + k).Accepted?)
    decreases retries
  {
    if retries == 0 || answers(n).Accepted? then 0 else 1 + Failures(answers, n + 1, retries - 1)
  }

  lemma {:induction false} FailuresAre(answers: nat -> Answer, n: nat, retries: nat, k: nat)
    requires k <= retries && (forall i :: n <= i < n + k ==> !answers(i).Accepted?)
      && (k < retries ==> answers(n + k).Accepted?)
    ensures Failures(answers, n, retries) == k
    decreases k
  {
    if k > 0 {
      assert !answers(n).Accepted?;
      FailuresAre(answers, n + 1, retries - 1, k - 1);
    }
  }

  /** The calls for one order, from call n on. */
  function Issued(order: Order, answers: nat -> Answer, n: nat, count: nat): (calls: seq<Call>)
    ensures |calls| == count && forall k :: 0 <= k < count ==> calls[k] == Call(order, answers(n + k))
  {
    if count == 0 then [] else Issued(order, answers, n, count - 1) + [Call(order, answers(n + count - 1))]
  }

  predicate WantsStop(o: CompositeOrder, retries: int) {
    o.slPrice.Some? && retries > 0
  }

  /** The number of attempts at the stop, from call n on. */
  function StopAttempts(o: CompositeOrder, retries: int, answers: nat -> Answer, n: nat): nat {
    if WantsStop(o, retries) then Min(Failures(answers, n, retries) + 1, retries) else 0
  }

  predicate StopFails(o: CompositeOrder, retries: int, answers: nat -> Answer, n: nat) {
    WantsStop(o, retries) && Failures(answers, n, retries) == retries
  }

  function StopsIssued(o: CompositeOrder, retries: int, answers: nat -> Answer, n: nat): seq<Call> {
    if WantsStop(o, retries) then Issued(o.Stop(), answers, n, StopAttempts(o, retries, answers, n)) else []
  }

  function TakeProfitIssued(o: CompositeOrder, answers: nat -> Answer, n: nat): seq<Call> {
    if o.tpPrice.Some? then [Call(o.TakeProfit(), answers(n))] else []
  }

  /** The calls that placing a composite order makes, from call n on. */
  function CompositeCalls(o: CompositeOrder, retries: int, answers: nat -> Answer, n: nat): seq<Call> {
    var entry := [Call(o.Entry(), answers(n))];
    if !answers(n).Accepted? then entry
    else if StopFails(o, retries, answers, n + 1) then entry + StopsIssued(o, retries, answers, n + 1)
    else entry + StopsIssued(o, retries, answers, n + 1)
         + TakeProfitIssued(o, answers, n + 1 + StopAttempts(o, retries, answers, n + 1))
  }

  function CompositeResult(o: CompositeOrder, retries: int, answers: nat -> Answer,
                           n: nat): Result<OrderResult, ClientError> {
    if !answers(n).Accepted? then Err(EntryFailed)
    else if StopFails(o, retries, answers, n + 1) then Err(SlPlacementFailed(answers(n).result))
    else Ok(answers(n).result)
  }

  lemma CompositeIsComposed(o: CompositeOrder, retries: int, answers: nat -> Answer, n: nat)
    ensures Composed(CompositeCalls(o, retries, answers, n), o, retries, CompositeResult(o, retries, answers, n))
  {
    var calls, stops := CompositeCalls(o, retries, answers, n), StopsIssued(o, retries, answers, n + 1);
    if answers(n).Accepted? {
      if StopFails(o, retries, answers, n + 1) {
        assert calls[1..] == stops;
      } else {
        StopsArePlaced(o, retries, answers, n + 1);
        var tp := TakeProfitIssued(o, answers, n + 1 + StopAttempts(o, retries, answers, n + 1));
        assert calls == [Call(o.Entry(), Accepted(answers(n).result))] + stops + tp;
        hide StopPlaced;
        assert TakeProfitTried(tp, o);
      }
    }
  }

  lemma StopsArePlaced(o: CompositeOrder, retries: int, answers: nat -> Answer, n: nat)
    requires !StopFails(o, retries, answers, n)
    ensures StopPlaced(StopsIssued(o, retries, answers, n), o, retries)
  {
    if WantsStop(o, retries) {
      var k, stops := Failures(answers, n, retries), StopsIssued(o, retries, answers, n);
      assert Last(stops) == Call(o.Stop(), answers(n + k));
      forall j | 0 <= j < |Init(stops)|
        ensures Init(stops)[j].order == o.Stop() && Init(stops)[j].Raised()
      {
        assert Init(stops)[j] == Call(o.Stop(), answers(n + j));
      }
    }
  }

  lemma StopsAreAnswered(o: CompositeOrder, retries: int, answers: nat -> Answer, n: nat)
    ensures var stops := StopsIssued(o, retries, answers, n);
      |stops| == StopAttempts(o, retries, answers, n)
      && forall k :: 0 <= k < |stops| ==> stops[k].answer == answers(n + k)
  {
  }

  /** The calls of a composite order, stage by stage. */
  lemma CompositeStages(before: seq<Call>, o: CompositeOrder, retries: int, answers: nat -> Answer)
    ensures var n := |before|; var entered := before + [Call(o.Entry(), answers(n))];
      var stopped := entered + (if o.slPrice.Some? then StopsIssued(o, retries, answers, n + 1) else []);
      var all := before + CompositeCalls(o, retries, answers, n);
      (o.slPrice.None? ==> !StopFails(o, retries, answers, n + 1))
      && (if !answers(n).Accepted? then all == entered
          else if StopFails(o, retries, answers, n + 1) then all == stopped
          else all == if o.tpPrice.Some? then stopped + [Call(o.TakeProfit(), answers(|stopped|))] else stopped)
  {
    var n := |before|;
    StopsAreAnswered(o, retries, answers, n + 1);
    var entry, stops := [Call(o.Entry(), answers(n))], StopsIssued(o, retries, answers, n + 1);
    var tp := TakeProfitIssued(o, answers, n + 1 + |stops|);
    hide Issued;
    hide Failures;
    assert before + (entry + stops) == before + entry + stops;
    assert before + (entry + stops + tp) == before + entry + stops + tp;
    if o.slPrice.None? {
      assert before + entry + [] == before + entry;
    }
    if o.tpPrice.None? {
      assert before + entry + stops + [] == before + entry + stops;
    }
  }

  lemma IssuedOneMore(before: seq<Call>, order: Order, answers: nat -> Answer, n: nat, count: nat)
    ensures before + Issued(order, answers, n, count + 1)
      == before + Issued(order, answers, n, count) + [Call(order, answers(n + count))]
  {
  }

  class CcxtOrderClient {
    const exchange: Exchange
    const maxSlRetries: int

    constructor (exchange: Exchange, maxSlRetries: int)
      ensures this.exchange == exchange && this.maxSlRetries == maxSlRetries
    {
      this.exchange, this.maxSlRetries := exchange, maxSlRetries;
    }

    /** The retry loop of the stop. */
    method PlaceStop(o: CompositeOrder) returns (slFailed: bool)
      requires o.slPrice.Some?
      modifies exchange
      ensures exchange.calls
        == old(exchange.calls) + StopsIssued(o, maxSlRetries, exchange.answers, |old(exchange.calls)|)
      ensures slFailed == StopFails(o, maxSlRetries, exchange.answers, |old(exchange.calls)|)
    {
      ghost var n := |exchange.calls|;
      slFailed := false;
      var attempt := 0;
      while attempt < maxSlRetries
        invariant 0 <= attempt <= Max(maxSlRetries, 0) && slFailed == (attempt > 0)
        invariant exchange.calls == old(exchange.calls) + Issued(o.Stop(), exchange.answers, n, attempt)
        invariant forall i :: n <= i < n + attempt ==> !exchange.answers(i).Accepted?
      {
        IssuedOneMore(old(exchange.calls), o.Stop(), exchange.answers, n, attempt);
        hide Issued;
        var sl := exchange.CreateOrder(o.Stop());
        if sl.Some? {
          FailuresAre(exchange.answers, n, maxSlRetries, attempt);
          return false;
        }
        slFailed := true;
        attempt := attempt + 1;
      }
      if maxSlRetries > 0 {
        FailuresAre(exchange.answers, n, maxSlRetries, attempt);
      }
    }

    method PlaceCompositeOrder(o: CompositeOrder) returns (r: Result<OrderResult, ClientError>)
      modifies exchange
      ensures exchange.calls
        == old(exchange.calls) + CompositeCalls(o, maxSlRetries, exchange.answers, |old(exchange.calls)|)
      ensures r == CompositeResult(o, maxSlRetries, exchange.answers, |old(exchange.calls)|)
    {
      CompositeStages(exchange.calls, o, maxSlRetries, exchange.answers);
      hide CompositeCalls;
      hide StopsIssued;
      hide StopFails;
      var raw := exchange.CreateOrder(o.Entry());
      if raw.None? {
        return Err(EntryFailed);
      }
      if o.slPrice.Some? {
        var slFailed := PlaceStop(o);
        if slFailed {
          return Err(SlPlacementFailed(raw.value));
        }
      }
      if o.tpPrice.Some? {
        var ignored := exchange.CreateOrder(o.TakeProfit());
      }
      r := Ok(raw.value);
    }

    method PlaceEmergencyMarket(side: OrderSide, amount: real) returns (r: Result<OrderResult, ClientError>)
      modifies exchange
      ensures exchange.calls == old(exchange.calls)
        + [Call(Market(side, if amount < 0.0 then -amount else amount), exchange.answers(|old(exchange.calls)|))]
      ensures if Last(exchange.calls).Raised() then r == Err(EmergencyFailed)
        else r == Ok(Last(exchange.calls).answer.result)
    {
      var raw := exchange.CreateOrder(Market(side, if amount < 0.0 then -amount else amount));
      if raw.None? {
        return Err(EmergencyFailed);
      }
      r := Ok(raw.value);
    }
  }

  // ---------- Placing an order with the emergency fallback ----------

  datatype Placement = Placement(entry: OrderResult, emergency: Option<OrderResult>)

  datatype PlaceOrderError = InvalidAmount | EntryOrderFailed | StopAndEmergencyFailed

  /** What may follow the entry: the stop and the take profit, for its full amount on the other side and at the
      prices asked for, or a market order that takes it back. */
  predicate MayFollow(order: Order, o: CompositeOrder) {
    order.side == Opposite(o.side) && order.amount == o.amount
    && match order
       case Market(_, _) => true
       case StopMarket(_, _, price) => o.slPrice == Some(price)
       case TakeProfitMarket(_, _, price) => o.tpPrice == Some(price)
  }

  /** The entry goes out first and once, and stops no more often than allowed. */
  predicate WellBehaved(calls: seq<Call>, o: CompositeOrder, retries: int) {
    calls != [] && calls[0].order == Market(o.side, o.amount) && StopCalls(calls) <= Max(retries, 0)
    && forall k :: 0 < k < |calls| ==> MayFollow(calls[k].order, o)
  }

  /** How the use case ends and what that leaves on the exchange. */
  predicate Outcome(calls: seq<Call>, o: CompositeOrder, retries: int, r: Result<Placement, PlaceOrderError>) {
    WellBehaved(calls, o, retries)
    && match r
       case Ok(Placement(entry, None)) =>
         calls[0].answer == Accepted(entry) && Net(calls) == Signed(o.side, o.amount)
         && LiveStops(calls) == if o.slPrice.Some? && retries > 0 then 1 + LostStops(calls) else 0
       case Ok(Placement(entry, Some(_))) =>
         calls[0].answer == Accepted(entry) && o.slPrice.Some? && retries > 0
         && Net(calls) == 0.0 && LiveStops(calls) == LostStops(calls)
       case Err(InvalidAmount) => false
       case Err(EntryOrderFailed) => |calls| == 1 && calls[0].Raised()
       case Err(StopAndEmergencyFailed) =>
         o.slPrice.Some? && retries > 0 && |calls| == retries + 2 && !calls[0].Raised()
         && AllRaised(calls[1..retries + 1], o.Stop()) && Last(calls).order == Market(Opposite(o.side), o.amount)
         && Last(calls).Raised()
  }

  lemma PlacedHoldings(calls: seq<Call>, o: CompositeOrder, retries: int, entry: OrderResult)
    requires o.Valid() && Composed(calls, o, retries, Ok(entry))
    ensures Outcome(calls, o, retries, Ok(Placement(entry, None)))
  {
    var first := [Call(o.Entry(), Accepted(entry))];
    var stops, tp :| calls == first + stops + tp && StopPlaced(stops, o, retries) && TakeProfitTried(tp, o);
    hide Net;
    hide LiveStops;
    hide LostStops;
    hide StopCalls;
    hide StopPlaced;
    hide TakeProfitTried;
    HoldingsAdd(first + stops, tp);
    HoldingsAdd(first, stops);
    HoldingsOfOne(first[0]);
    TakeProfitHoldings(tp, o);
    StopHoldings(stops, o, retries);
    OnlyStopsAndTakeProfit(stops, tp, o, retries);
    BehavesWell(first[0], stops, tp, o, retries);
  }

  lemma BehavesWell(entry: Call, stops: seq<Call>, tp: seq<Call>, o: CompositeOrder, retries: int)
    requires entry.order == Market(o.side, o.amount) && StopCalls([entry] + stops + tp) <= Max(retries, 0)
    requires forall k :: 0 <= k < |stops + tp| ==> MayFollow((stops + tp)[k].order, o)
    ensures WellBehaved([entry] + stops + tp, o, retries)
  {
    hide StopCalls;
    var calls := [entry] + stops + tp;
    assert forall k :: 0 < k < |calls| ==> calls[k] == (stops + tp)[k - 1];
  }

  lemma TakeProfitHoldings(tp: seq<Call>, o: CompositeOrder)
    requires TakeProfitTried(tp, o)
    ensures Net(tp) == 0.0 && LiveStops(tp) == 0 && LostStops(tp) == 0 && StopCalls(tp) == 0
  {
    if o.tpPrice.Some? {
      HoldingsOfOne(tp[0]);
      assert tp == [tp[0]];
    }
  }

  lemma StopHoldings(stops: seq<Call>, o: CompositeOrder, retries: int)
    requires StopPlaced(stops, o, retries)
    ensures Net(stops) == 0.0 && StopCalls(stops) <= Max(retries, 0)
    ensures LiveStops(stops) == if o.slPrice.Some? && retries > 0 then 1 + LostStops(stops) else 0
  {
    if o.slPrice.Some? && retries > 0 {
      assert stops == Init(stops) + [Last(stops)];
      HoldingsAdd(Init(stops), [Last(stops)]);
      HoldingsOfRaisedStops(Init(stops), o.Stop());
      HoldingsOfOne(Last(stops));
    }
  }

  lemma OnlyStopsAndTakeProfit(stops: seq<Call>, tp: seq<Call>, o: CompositeOrder, retries: int)
    requires o.Valid() && StopPlaced(stops, o, retries) && TakeProfitTried(tp, o)
    ensures forall k :: 0 <= k < |stops + tp| ==> MayFollow((stops + tp)[k].order, o)
  {
    if stops != [] {
      assert forall k :: 0 <= k < |stops| - 1 ==> Init(stops)[k] == stops[k];
    }
  }

  lemma EmergencyHoldings(calls: seq<Call>, o: CompositeOrder, retries: int, entry: OrderResult, emergency: Call)
    requires o.Valid() && Composed(calls, o, retries, Err(SlPlacementFailed(entry)))
    requires emergency.order == Market(Opposite(o.side), o.amount)
    ensures Outcome(calls + [emergency], o, retries,
                    if emergency.Raised() then Err(StopAndEmergencyFailed)
                    else Ok(Placement(entry, Some(emergency.answer.result))))
  {
    var stops := calls[1..];
    assert calls == [calls[0]] + stops;
    HoldingsAdd(calls, [emergency]);
    HoldingsAdd([calls[0]], stops);
    HoldingsOfOne(calls[0]);
    HoldingsOfOne(emergency);
    HoldingsOfRaisedStops(stops, o.Stop());
    assert (calls + [emergency])[1..retries + 1] == stops;
  }

  /** The calls of the use case, from call n on. */
  function PlacingCalls(o: CompositeOrder, retries: int, answers: nat -> Answer, n: nat): seq<Call> {
    var composite := CompositeCalls(o, retries, answers, n);
    match CompositeResult(o, retries, answers, n)
    case Err(SlPlacementFailed(_)) => composite + [Call(Market(Opposite(o.side), o.Size()), answers(n + |composite|))]
    case _ => composite
  }

  function PlacingResult(o: CompositeOrder, retries: int, answers: nat -> Answer,
                         n: nat): Result<Placement, PlaceOrderError> {
    match CompositeResult(o, retries, answers, n)
    case Ok(entry) => Ok(Placement(entry, None))
    case Err(SlPlacementFailed(entry)) =>
      var emergency := answers(n + |CompositeCalls(o, retries, answers, n)|);
      if emergency.Accepted? then Ok(Placement(entry, Some(emergency.result))) else Err(StopAndEmergencyFailed)
    case _ => Err(EntryOrderFailed)
  }

  /** Whatever the exchange answers: which calls are made and what they leave. */
  lemma PlacingOutcome(o: CompositeOrder, retries: int, answers: nat -> Answer, n: nat)
    requires o.Valid()
    ensures Outcome(PlacingCalls(o, retries, answers, n), o, retries, PlacingResult(o, retries, answers, n))
  {
    var calls, r := CompositeCalls(o, retries, answers, n), CompositeResult(o, retries, answers, n);
    CompositeIsComposed(o, retries, answers, n);
    hide CompositeCalls;
    hide Outcome;
    match r
    case Ok(entry) => PlacedHoldings(calls, o, retries, entry);
    case Err(SlPlacementFailed(entry)) =>
      EmergencyHoldings(calls, o, retries, entry, Call(Market(Opposite(o.side), o.amount), answers(n + |calls|)));
    case _ => EntryFailedOutcome(calls, o, retries);
  }

  lemma EntryFailedOutcome(calls: seq<Call>, o: CompositeOrder, retries: int)
    requires o.Valid() && Composed(calls, o, retries, Err(EntryFailed))
    ensures Outcome(calls, o, retries, Err(EntryOrderFailed))
  {
    HoldingsOfOne(calls[0]);
    assert calls == [calls[0]];
  }

  class PlaceOrderUseCase {
    const orders: CcxtOrderClient

    constructor (orders: CcxtOrderClient)
      ensures this.orders == orders
    {
      this.orders := orders;
    }

    method Execute(side: OrderSide, amount: real, slPrice: Option<real>, tpPrice: Option<real>)
      returns (r: Result<Placement, PlaceOrderError>)
      modifies orders.exchange
      ensures amount <= 0.0 ==> r == Err(InvalidAmount) && orders.exchange.calls == old(orders.exchange.calls)
      ensures amount > 0.0 ==>
        var o, n := CompositeOrder(side, amount, slPrice, tpPrice), |old(orders.exchange.calls)|;
        r == PlacingResult(o, orders.maxSlRetries, orders.exchange.answers, n)
        && orders.exchange.calls
          == old(orders.exchange.calls) + PlacingCalls(o, orders.maxSlRetries, orders.exchange.answers, n)
        && Outcome(orders.exchange.calls[n..], o, orders.maxSlRetries, r)
    {
      var o := CompositeOrder(side, amount, slPrice, tpPrice);
      if !o.Valid() {
        return Err(InvalidAmount);
      }
      PlacingOutcome(o, orders.maxSlRetries, orders.exchange.answers, |orders.exchange.calls|);
      hide CompositeCalls;
      hide CompositeResult;
      hide Outcome;
      var entry := orders.PlaceCompositeOrder(o);
      if entry.Err? && entry.error.SlPlacementFailed? {
        var emergency := orders.PlaceEmergencyMarket(Opposite(side), amount);
        if emergency.Err? {
          return Err(StopAndEmergencyFailed);
        }
        return Ok(Placement(entry.error.entry, Some(emergency.value)));
      }
      if entry.Err? {
        return Err(EntryOrderFailed);
      }
      r := Ok(Placement(entry.value, None));
    }
  }

  // ---------- What a return promises, by the exchange's answers ----------

  /** The use case succeeds exactly when the entry is confirmed and, if a stop is wanted, one of the attempts at it
      or the emergency order after them would be. */
  lemma SucceedsIff(o: CompositeOrder, retries: int, answers: nat -> Answer, n: nat)
    ensures PlacingResult(o, retries, answers, n).Ok? <==>
      answers(n).Accepted? && (WantsStop(o, retries) ==> exists i :: n < i <= n + 1 + retries && answers(i).Accepted?)
  {
    if answers(n).Accepted? && WantsStop(o, retries) {
      var k := Failures(answers, n + 1, retries);
      if k < retries {
        assert answers(n + 1 + k).Accepted?;
      } else {
        assert |CompositeCalls(o, retries, answers, n)| == 1 + retries;
      }
    }
  }

  /** The whole position is under exactly one stop. */
  predicate Protected(calls: seq<Call>, o: CompositeOrder) {
    Net(calls) == Signed(o.side, o.amount) && LiveStops(calls) == 1
  }

  /** Nothing is left on the exchange. */
  predicate Flat(calls: seq<Call>) {
    Net(calls) == 0.0 && LiveStops(calls) == 0
  }

  lemma {:induction false} LostAmongIssued(order: Order, answers: nat -> Answer, n: nat, count: nat)
    requires order.StopMarket?
    ensures LostStops(Issued(order, answers, n, count)) == 0
      <==> forall i :: n <= i < n + count ==> !answers(i).AckLost?
  {
    if count > 0 {
      LostAmongIssued(order, answers, n, count - 1);
      var calls := Issued(order, answers, n, count);
      assert Init(calls) == Issued(order, answers, n, count - 1) && Last(calls) == Call(order, answers(n + count - 1));
    }
  }

  lemma LostAmongPlaced(o: CompositeOrder, retries: int, answers: nat -> Answer, n: nat)
    requires answers(n).Accepted?
    ensures LostStops(PlacingCalls(o, retries, answers, n)) == LostStops(StopsIssued(o, retries, answers, n + 1))
  {
    var entry, stops := Call(o.Entry(), answers(n)), StopsIssued(o, retries, answers, n + 1);
    var tp := TakeProfitIssued(o, answers, n + 1 + StopAttempts(o, retries, answers, n + 1));
    var emergency := Call(Market(Opposite(o.side), o.Size()), answers(n + 1 + |stops|));
    hide StopsIssued;
    hide StopAttempts;
    HoldingsOfOne(entry);
    HoldingsOfOne(emergency);
    HoldingsAdd([entry], stops);
    HoldingsAdd([entry] + stops, [emergency]);
    HoldingsAdd([entry] + stops, tp);
    NoStopAmong(tp, o, answers);
    hide LostStops;
  }

  lemma NoStopAmong(tp: seq<Call>, o: CompositeOrder, answers: nat -> Answer)
    requires exists n :: tp == TakeProfitIssued(o, answers, n)
    ensures LostStops(tp) == 0
  {
    if tp != [] {
      HoldingsOfOne(tp[0]);
      assert tp == [tp[0]];
    }
  }

  /** An order with a stop that returns normally leaves its position under exactly one stop, or no position
      and no stop - exactly when at least one attempt at the stop is allowed and the confirmation of none was lost;
      in that case it is under its stop exactly when no emergency order was needed. */
  lemma NormalReturnProtectsIff(o: CompositeOrder, retries: int, answers: nat -> Answer, n: nat)
    requires o.Valid() && o.slPrice.Some? && PlacingResult(o, retries, answers, n).Ok?
    ensures var calls := PlacingCalls(o, retries, answers, n);
      var clean := retries > 0
        && forall i :: n < i <= n + StopAttempts(o, retries, answers, n + 1) ==> !answers(i).AckLost?;
      (Protected(calls, o) || Flat(calls) <==> clean)
      && (clean ==> (Protected(calls, o) <==> PlacingResult(o, retries, answers, n).value.emergency.None?))
  {
    PlacingOutcome(o, retries, answers, n);
    OutcomeProtectsIff(PlacingCalls(o, retries, answers, n), o, retries, PlacingResult(o, retries, answers, n).value);
    LostAmongPlaced(o, retries, answers, n);
    hide *;
    if retries > 0 {
      LostAmongAttempts(o, retries, answers, n + 1);
    }
  }

  lemma OutcomeProtectsIff(calls: seq<Call>, o: CompositeOrder, retries: int, p: Placement)
    requires o.Valid() && o.slPrice.Some? && Outcome(calls, o, retries, Ok(p))
    ensures Protected(calls, o) || Flat(calls) <==> retries > 0 && LostStops(calls) == 0
    ensures retries > 0 && LostStops(calls) == 0 ==> (Protected(calls, o) <==> p.emergency.None?)
  {
    hide WellBehaved;
  }

  lemma LostAmongAttempts(o: CompositeOrder, retries: int, answers: nat -> Answer, n: nat)
    requires o.slPrice.Some? && retries > 0
    ensures LostStops(StopsIssued(o, retries, answers, n)) == 0
            <==> forall i :: n <= i < n + StopAttempts(o, retries, answers, n) ==> !answers(i).AckLost?
  {
    LostAmongIssued(o.Stop(), answers, n, StopAttempts(o, retries, answers, n));
  }

  /** With no attempt allowed, a stop asked for is never placed: the use case succeeds exactly when the entry is
      confirmed, and then the whole position stands without a stop. */
  lemma NoRetriesLeavesPositionUnprotected(o: CompositeOrder, retries: int, answers: nat -> Answer, n: nat)
    requires o.Valid() && retries <= 0
    ensures PlacingResult(o, retries, answers, n).Ok? <==> answers(n).Accepted?
    ensures answers(n).Accepted? ==>
      Net(PlacingCalls(o, retries, answers, n)) == Signed(o.side, o.amount)
      && LiveStops(PlacingCalls(o, retries, answers, n)) == 0
  {
    PlacingOutcome(o, retries, answers, n);
    hide PlacingCalls;
    hide Net;
    hide LiveStops;
  }

  lemma {:induction false} NothingLostNoLiveOrder(calls: seq<Call>, stop: Order)
    requires stop.StopMarket? && AllRaised(calls, stop) && forall c :: c in calls ==> !c.answer.AckLost?
    ensures LiveStops(calls) == 0
  {
    if calls != [] {
      NothingLostNoLiveOrder(Init(calls), stop);
    }
  }

  /** When no confirmation is lost, an error means either nothing was opened, or the entry stands with neither
      stop nor emergency close. */
  lemma ErrorMeansNoEntryOrUnprotectedEntry(o: CompositeOrder, retries: int, answers: nat -> Answer, n: nat)
    requires o.Valid() && PlacingResult(o, retries, answers, n).Err?
    requires forall i :: n <= i < n + |PlacingCalls(o, retries, answers, n)| ==> !answers(i).AckLost?
    ensures LiveStops(PlacingCalls(o, retries, answers, n)) == 0
    ensures Net(PlacingCalls(o, retries, answers, n)) == if answers(n).Accepted? then Signed(o.side, o.amount) else 0.0
  {
    PlacingOutcome(o, retries, answers, n);
    PlacingIsAnswered(o, retries, answers, n);
    var calls := PlacingCalls(o, retries, answers, n);
    forall c | c in calls
      ensures !c.answer.AckLost?
    {
      var k :| 0 <= k < |calls| && calls[k] == c;
      assert c.answer == answers(n + k);
    }
    hide PlacingCalls;
    ErrorOutcome(calls, o, retries, PlacingResult(o, retries, answers, n).error);
  }

  lemma PlacingIsAnswered(o: CompositeOrder, retries: int, answers: nat -> Answer, n: nat)
    ensures var calls := PlacingCalls(o, retries, answers, n);
      forall k :: 0 <= k < |calls| ==> calls[k].answer == answers(n + k)
  {
    hide StopFails;
    hide StopAttempts;
    StopsAreAnswered(o, retries, answers, n + 1);
    hide StopsIssued;
    hide CompositeOrder.TakeProfit;
    hide CompositeOrder.Entry;
    hide CompositeOrder.Size;
  }

  lemma ErrorOutcome(calls: seq<Call>, o: CompositeOrder, retries: int, e: PlaceOrderError)
    requires o.Valid() && Outcome(calls, o, retries, Err(e)) && forall c :: c in calls ==> !c.answer.AckLost?
    ensures LiveStops(calls) == 0
    ensures Net(calls) == if e == EntryOrderFailed then 0.0 else Signed(o.side, o.amount)
  {
    if e == EntryOrderFailed {
      HoldingsOfOne(calls[0]);
      assert calls == [calls[0]];
    } else {
      var stops := calls[1..retries + 1];
      assert calls == [calls[0]] + stops + [Last(calls)];
      HoldingsAdd([calls[0]] + stops, [Last(calls)]);
      HoldingsAdd([calls[0]], stops);
      HoldingsOfOne(calls[0]);
      HoldingsOfOne(Last(calls));
      HoldingsOfRaisedStops(stops, o.Stop());
      NothingLostNoLiveOrder(stops, o.Stop());
    }
  }
}
