/** What the exchange holds against what the repository says, over whole runs of engine executions. */
module Reconciliation {
  import opened Common
  import opened Positions
  import opened Monitoring
  import opened ExecutionPipeline
  import opened TradingRuns
  import B = BracketOrder
  import V = SignalValidation

  /** One execution: the signal, whether the validator accepts it, the breaker, the market data, the new id. */
  datatype Attempt = Attempt(signal: V.ExecutionSignal, accepted: bool, halted: bool, market: Option<Market>,
                             id: string)

  /** The calls made to the exchange so far, and the repository. */
  datatype Desk = Desk(calls: seq<B.Call>, book: Book)

  /** The engine's configuration and the exchange's answers; call number n is answered by answers(n). */
  datatype World = World(config: Config, retries: int, answers: nat -> B.Answer)

  function PlanOf(w: World, d: Desk, a: Attempt): Result<B.CompositeOrder, Rejection> {
    Plan(w.config, OpenPositions(d.book.ids, d.book.store), a.signal, a.halted, a.market)
  }

  predicate Sends(w: World, d: Desk, a: Attempt) {
    a.accepted && PlanOf(w, d, a).Ok?
  }

  /** What the engine learns of the order it sends. */
  function Confirmation(w: World, d: Desk, a: Attempt): Option<B.OrderResult>
    requires Sends(w, d, a)
  {
    var placed := B.CompositeResult(PlanOf(w, d, a).value, w.retries, w.answers, |d.calls|);
    if placed.Ok? then Some(placed.value) else None
  }

  /** One execution, as the engine's contract describes it. */
  function Step(w: World, d: Desk, a: Attempt): Desk {
    if !Sends(w, d, a) then d
    else Desk(d.calls + B.CompositeCalls(PlanOf(w, d, a).value, w.retries, w.answers, |d.calls|),
              AfterExecution(w.config, d.book, a.signal, true, a.halted, a.market, Confirmation(w, d, a), a.id))
  }

  function After(w: World, run: seq<Attempt>): Desk {
    if run == [] then Desk([], Book([], map[])) else Step(w, After(w, Init(run)), Last(run))
  }

  function UnitsOf(ps: seq<LivePosition>): real {
    if ps == [] then 0.0 else UnitsOf(Init(ps)) + B.Signed(Last(ps).side, Last(ps).units)
  }

  /** The units that the repository's open positions add up to, sales negative. */
  function Recorded(b: Book): real {
    UnitsOf(OpenPositions(b.ids, b.store))
  }

  // ---------- What one execution leaves unrecorded ----------

  /** The position that the engine saves for a confirmed order, if it is valid. */
  function SavedPosition(w: World, d: Desk, a: Attempt): Option<LivePosition>
    requires Sends(w, d, a)
  {
    var result := Confirmation(w, d, a);
    if result.None? || a.signal.price.None? then None
    else Settle(Opened(a.signal, a.signal.price.value, PlanOf(w, d, a).value, result.value, a.id), result.value).saved
  }

  /** Nothing without an order that the exchange took. Of one that it took: all of it, if its confirmation was
      lost, its stop could not be placed or its position is not valid; else what was confirmed short. */
  function Unrecorded(w: World, d: Desk, a: Attempt): real {
    if !Sends(w, d, a) || w.answers(|d.calls|).Rejected? then 0.0
    else
      var saved := SavedPosition(w, d, a);
      B.Signed(a.signal.side, PlanOf(w, d, a).value.amount - if saved.Some? then saved.value.units else 0.0)
  }

  function AllUnrecorded(w: World, run: seq<Attempt>): real {
    if run == [] then 0.0 else AllUnrecorded(w, Init(run)) + Unrecorded(w, After(w, Init(run)), Last(run))
  }

  // ---------- The exchange's side ----------

  lemma {:induction false} ProtectionHoldsNothing(calls: seq<B.Call>)
    requires forall k :: 0 <= k < |calls| ==> !calls[k].order.Market?
    ensures B.Net(calls) == 0.0
  {
    if calls != [] {
      ProtectionHoldsNothing(Init(calls));
    }
  }

  /** A composite order changes the exchange's position by its amount, or not at all if the entry was refused. */
  lemma NetOfComposite(before: seq<B.Call>, o: B.CompositeOrder, retries: int, answers: nat -> B.Answer, n: nat)
    requires o.Valid()
    ensures B.Net(before + B.CompositeCalls(o, retries, answers, n))
            == B.Net(before) + if answers(n).Rejected? then 0.0 else B.Signed(o.side, o.amount)
  {
    var calls := B.CompositeCalls(o, retries, answers, n);
    assert calls == [calls[0]] + calls[1..];
    assert forall k :: 0 < k < |calls| ==> !calls[k].order.Market?;
    ProtectionHoldsNothing(calls[1..]);
    hide B.CompositeCalls;
    hide B.Net;
    B.HoldingsAdd(before, calls);
    B.HoldingsAdd([calls[0]], calls[1..]);
    B.HoldingsOfOne(calls[0]);
  }

  // ---------- The repository's side ----------

  lemma SavingNewPosition(b: Book, p: LivePosition)
    requires ValidStore(b.ids, b.store) && p.id !in b.store && p.IsOpen()
    ensures Recorded(Save(b, p)) == Recorded(b) + B.Signed(p.side, p.units)
    ensures ValidStore(Save(b, p).ids, Save(b, p).store)
  {
    OpenAfterSaving(b.ids, b.store, p);
    UnitsOfNext(OpenPositions(b.ids, b.store), p);
    SavingKeepsStoreValid(b, p);
    hide OpenPositions;
    hide UnitsOf;
    hide LivePosition.IsOpen;
  }

  lemma UnitsOfNext(ps: seq<LivePosition>, p: LivePosition)
    ensures UnitsOf(ps + [p]) == UnitsOf(ps) + B.Signed(p.side, p.units)
  {
    assert Init(ps + [p]) == ps;
  }

  // ---------- Both together ----------

  /** Every execution makes up an id of its own. */
  predicate NewIds(run: seq<Attempt>) {
    forall i, j :: 0 <= i < j < |run| ==> run[i].id != run[j].id
  }

  ghost predicate KnowsOnly(b: Book, run: seq<Attempt>) {
    ValidStore(b.ids, b.store) && forall id :: id in b.store ==> exists k :: 0 <= k < |run| && run[k].id == id
  }

  lemma PlannedSide(c: Config, open: seq<LivePosition>, signal: V.ExecutionSignal, halted: bool, market: Option<Market>)
    requires Plan(c, open, signal, halted, market).Ok?
    ensures Plan(c, open, signal, halted, market).value.side == signal.side
  {
  }

  lemma StepReconciles(w: World, d: Desk, a: Attempt)
    requires ValidStore(d.book.ids, d.book.store) && a.id !in d.book.store
    ensures var t := Step(w, d, a);
      B.Net(t.calls) - Recorded(t.book) == B.Net(d.calls) - Recorded(d.book) + Unrecorded(w, d, a)
      && ValidStore(t.book.ids, t.book.store) && forall id :: id in t.book.store ==> id in d.book.store || id == a.id
  {
    hide B.Net;
    hide Recorded;
    if Sends(w, d, a) {
      var o, n := PlanOf(w, d, a).value, |d.calls|;
      PlannedPrice(w.config, OpenPositions(d.book.ids, d.book.store), a.signal, a.halted, a.market);
      PlannedSide(w.config, OpenPositions(d.book.ids, d.book.store), a.signal, a.halted, a.market);
      hide Plan;
      NetOfComposite(d.calls, o, w.retries, w.answers, n);
      hide B.CompositeCalls;
      hide ValidStore;
      hide OpenPositions;
      hide B.StopFails;
      var saved := SavedPosition(w, d, a);
      if saved.Some? {
        SavingNewPosition(d.book, saved.value);
      }
    }
  }

  /** After any run, what the exchange holds exceeds what the repository says by exactly the orders that were taken
      and left unrecorded. */
  lemma {:induction false} ExchangeExceedsRecordsByTheUnrecorded(w: World, run: seq<Attempt>)
    requires NewIds(run)
    ensures B.Net(After(w, run).calls) == Recorded(After(w, run).book) + AllUnrecorded(w, run)
    ensures KnowsOnly(After(w, run).book, run)
  {
    if run == [] {
    } else {
      ExchangeExceedsRecordsByTheUnrecorded(w, Init(run));
      var d, a := After(w, Init(run)), Last(run);
      hide Step;
      hide Unrecorded;
      hide B.Net;
      hide Recorded;
      assert a.id !in d.book.store;
      StepReconciles(w, d, a);
      forall id | id in After(w, run).book.store
        ensures exists k :: 0 <= k < |run| && run[k].id == id
      {
        if id == a.id {
          assert run[|run| - 1].id == id;
        } else {
          var k :| 0 <= k < |Init(run)| && Init(run)[k].id == id;
          assert run[k].id == id;
        }
      }
    }
  }

  // ---------- When the two agree ----------

  /** The order was not taken, or its position was saved with all its units. */
  predicate IsRecorded(w: World, run: seq<Attempt>, k: nat)
    requires k < |run|
  {
    var d, a := After(w, run[..k]), run[k];
    Sends(w, d, a) && !w.answers(|d.calls|).Rejected? ==>
      SavedPosition(w, d, a).Some? && SavedPosition(w, d, a).value.units == PlanOf(w, d, a).value.amount
  }

  /** No order is confirmed with more than its amount. */
  predicate NotOverfilled(w: World, run: seq<Attempt>, k: nat)
    requires k < |run|
  {
    var d, a := After(w, run[..k]), run[k];
    Sends(w, d, a) && Confirmation(w, d, a).Some? ==>
      Confirmation(w, d, a).value.filledAmount <= PlanOf(w, d, a).value.amount
  }

  lemma SameInPrefix(w: World, run: seq<Attempt>, k: nat)
    requires k < |run| - 1
    ensures NotOverfilled(w, Init(run), k) == NotOverfilled(w, run, k)
      && IsRecorded(w, Init(run), k) == IsRecorded(w, run, k)
  {
    assert Init(run)[..k] == run[..k] && Init(run)[k] == run[k];
  }

  lemma UnrecordedSign(w: World, d: Desk, a: Attempt)
    requires Sends(w, d, a) && Confirmation(w, d, a).Some? ==>
               Confirmation(w, d, a).value.filledAmount <= PlanOf(w, d, a).value.amount
    ensures B.Signed(a.signal.side, Unrecorded(w, d, a)) >= 0.0
    ensures Unrecorded(w, d, a) == 0.0 <==>
      (Sends(w, d, a) && !w.answers(|d.calls|).Rejected? ==>
         SavedPosition(w, d, a).Some? && SavedPosition(w, d, a).value.units == PlanOf(w, d, a).value.amount)
  {
    if Sends(w, d, a) {
      PlannedPrice(w.config, OpenPositions(d.book.ids, d.book.store), a.signal, a.halted, a.market);
      hide Plan;
      hide B.CompositeResult;
    }
  }

  lemma LastUnrecorded(w: World, run: seq<Attempt>)
    requires run != [] && NotOverfilled(w, run, |run| - 1)
    ensures var u := Unrecorded(w, After(w, Init(run)), Last(run));
      B.Signed(Last(run).signal.side, u) >= 0.0 && (u == 0.0 <==> IsRecorded(w, run, |run| - 1))
  {
    hide After;
    assert run[..|run| - 1] == Init(run);
    UnrecordedSign(w, After(w, Init(run)), Last(run));
    hide *;
  }

  lemma {:induction false} OneSidedUnrecorded(w: World, run: seq<Attempt>, side: OrderSide)
    requires forall k :: 0 <= k < |run| ==> run[k].signal.side == side && NotOverfilled(w, run, k)
    ensures B.Signed(side, AllUnrecorded(w, run)) >= 0.0
    ensures AllUnrecorded(w, run) == 0.0 <==> forall k :: 0 <= k < |run| ==> IsRecorded(w, run, k)
  {
    if run == [] {
    } else {
      hide IsRecorded;
      hide NotOverfilled;
      forall k | 0 <= k < |run| - 1
        ensures NotOverfilled(w, Init(run), k) && (IsRecorded(w, Init(run), k) <==> IsRecorded(w, run, k))
      {
        SameInPrefix(w, run, k);
      }
      OneSidedUnrecorded(w, Init(run), side);
      LastUnrecorded(w, run);
      hide Unrecorded;
      hide After;
    }
  }

  /** When all signals are on one side, exchange and repository agree exactly when every order that was taken has
      been saved with all its units: nothing on one side makes up for anything else. */
  lemma AgreeIffAllRecorded(w: World, run: seq<Attempt>, side: OrderSide)
    requires NewIds(run) && forall k :: 0 <= k < |run| ==> run[k].signal.side == side && NotOverfilled(w, run, k)
    ensures B.Net(After(w, run).calls) == Recorded(After(w, run).book)
      <==> forall k :: 0 <= k < |run| ==> IsRecorded(w, run, k)
  {
    ExchangeExceedsRecordsByTheUnrecorded(w, run);
    OneSidedUnrecorded(w, run, side);
    hide *;
  }
}
