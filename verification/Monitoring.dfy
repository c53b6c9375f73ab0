/** The monitoring use case: one pass over the open positions, and what any number of passes keep. */
module Monitoring {
  import opened Common
  import opened Positions
  import opened StopRatchet
  import opened ClosingRules

  // ---------- The repository ----------

  type Store = map<string, LivePosition>

  /** The ids in the order in which they were first saved. */
  ghost predicate ValidStore(ids: seq<string>, store: Store) {
    (forall id :: id in store <==> id in ids)
    && (forall i, j :: 0 <= i < j < |ids| ==> ids[i] != ids[j])
    && (forall id :: id in store ==> store[id].id == id)
  }

  function OpenPositions(ids: seq<string>, store: Store): seq<LivePosition> {
    if ids == [] then []
    else OpenPositions(Init(ids), store)
         + if Last(ids) in store && store[Last(ids)].IsOpen() then [store[Last(ids)]] else []
  }

  class PositionRepository {
    var ids: seq<string>
    var store: Store

    ghost predicate Valid()
      reads this
    {
      ValidStore(ids, store)
    }

    constructor ()
      ensures Valid() && ids == [] && store == map[]
    {
      ids, store := [], map[];
    }

    method Save(p: LivePosition)
      requires Valid()
      modifies this
      ensures Valid() && store == old(store)[p.id := p]
      ensures ids == if p.id in old(store) then old(ids) else old(ids) + [p.id]
    {
      if p.id !in store {
        ids := ids + [p.id];
      }
      store := store[p.id := p];
    }

    method ListOpen() returns (ps: seq<LivePosition>)
      requires Valid()
      ensures ps == OpenPositions(ids, store)
    {
      ps := [];
      for i := 0 to |ids|
        invariant ps == OpenPositions(ids[..i], store)
      {
        assert Init(ids[..i + 1]) == ids[..i];
        if store[ids[i]].IsOpen() {
          ps := ps + [store[ids[i]]];
        }
      }
      assert ids[..|ids|] == ids;
    }
  }

  // ---------- One pass ----------

  /** What the outside answers for one position: its price, unless the provider fails; an ATR, absent when
      there is no provider or it fails; and whether an order would be accepted. */
  datatype Quote = Quote(price: Option<real>, atr: Option<real>, accepted: bool)

  type Feed = nat -> Quote

  datatype MonitorResult = MonitorResult(closed: nat, held: nat, partialCloses: nat, slUpdates: nat, beActivations: nat,
                                         trailActivations: nat)

  const NOTHING_DONE := MonitorResult(0, 0, 0, 0, 0, 0)

  function Count(r: MonitorResult, d: Decision): MonitorResult {
    match d
    case Hold => r.(held := r.held + 1)
    case Close(_) => r.(closed := r.closed + 1)
    case PartialClose(_, _) => r.(partialCloses := r.partialCloses + 1)
    case ActivateBreakEven(_) => r.(beActivations := r.beActivations + 1)
    case ActivateTrail(_) => r.(trailActivations := r.trailActivations + 1)
    case UpdateSl(_) => r.(slUpdates := r.slUpdates + 1)
  }

  datatype Pass = Pass(store: Store, result: MonitorResult, error: Option<MonitorError>)

  /** One position: the first failure ends the pass and leaves what was saved before it. */
  function Process(before: Pass, p: LivePosition, q: Quote): Pass {
    if before.error.Some? then before
    else if q.price.None? then before.(error := Some(PriceUnavailable))
    else match MonitorOne(p, q.price.value, q.atr, q.accepted)
      case Held => before.(result := Count(before.result, Hold))
      case Saved(p') => Pass(before.store[p.id := p'], Count(before.result, Evaluate(p, q.price.value, q.atr)), None)
      case Failed(e, _) => before.(error := Some(e))
  }

  /** The first k open positions have been processed. */
  function PassSome(store: Store, ps: seq<LivePosition>, feed: Feed, k: nat): Pass
    requires k <= |ps|
  {
    if k == 0 then Pass(store, NOTHING_DONE, None)
    else Process(PassSome(store, ps, feed, k - 1), ps[k - 1], feed(k - 1))
  }

  function WholePass(ids: seq<string>, store: Store, feed: Feed): Pass {
    var ps := OpenPositions(ids, store);
    PassSome(store, ps, feed, |ps|)
  }

  // ---------- What a pass counts ----------

  function DeedOfStep(p: LivePosition, q: Quote): Deed {
    if q.price.None? then Nothing
    else match MonitorOne(p, q.price.value, q.atr, q.accepted)
      case Saved(p') => DeedOf(p, p')
      case _ => Nothing
  }

  /** How many of the first k steps did this. */
  function Deeds(ps: seq<LivePosition>, feed: Feed, k: nat, deed: Deed): nat
    requires k <= |ps|
  {
    if k == 0 then 0 else Deeds(ps, feed, k - 1, deed) + if DeedOfStep(ps[k - 1], feed(k - 1)) == deed then 1 else 0
  }

  predicate CountsDeeds(r: MonitorResult, ps: seq<LivePosition>, feed: Feed, k: nat)
    requires k <= |ps|
  {
    r.held == Deeds(ps, feed, k, Nothing) && r.closed == Deeds(ps, feed, k, ClosedAll)
    && r.partialCloses == Deeds(ps, feed, k, ClosedPart) && r.beActivations == Deeds(ps, feed, k, BrokeEven)
    && r.trailActivations == Deeds(ps, feed, k, StartedTrail) && r.slUpdates == Deeds(ps, feed, k, Tightened)
  }

  /** One more of what the step did, and of nothing else. */
  predicate CountedOnce(r: MonitorResult, r': MonitorResult, deed: Deed) {
    r'.held == r.held + (if deed == Nothing then 1 else 0)
    && r'.closed == r.closed + (if deed == ClosedAll then 1 else 0)
    && r'.partialCloses == r.partialCloses + (if deed == ClosedPart then 1 else 0)
    && r'.beActivations == r.beActivations + (if deed == BrokeEven then 1 else 0)
    && r'.trailActivations == r.trailActivations + (if deed == StartedTrail then 1 else 0)
    && r'.slUpdates == r.slUpdates + (if deed == Tightened then 1 else 0)
  }

  lemma StepIsCounted(before: Pass, p: LivePosition, q: Quote)
    requires before.error.None? && Process(before, p, q).error.None?
    ensures CountedOnce(before.result, Process(before, p, q).result, DeedOfStep(p, q))
  {
    hide RiskMultiple;
    hide ComputeTrailOffset;
    hide CloseUnits;
  }

  /** On normal return every counter is the number of positions to which that was done, as the saved positions show. */
  lemma {:induction false} CountersTellWhatWasDone(store: Store, ps: seq<LivePosition>, feed: Feed, k: nat)
    requires k <= |ps| && PassSome(store, ps, feed, k).error.None?
    ensures CountsDeeds(PassSome(store, ps, feed, k).result, ps, feed, k)
  {
    hide DeedOfStep;
    hide MonitorOne;
    if k > 0 {
      CountersTellWhatWasDone(store, ps, feed, k - 1);
      StepIsCounted(PassSome(store, ps, feed, k - 1), ps[k - 1], feed(k - 1));
    }
  }

  // ---------- What a pass does to each position ----------

  predicate Distinct(ps: seq<LivePosition>) {
    forall i, j :: 0 <= i < j < |ps| ==> ps[i].id != ps[j].id
  }

  /** The position is stored as its step of the pass leaves it, and the step has not failed. */
  predicate IsProcessed(store: Store, p: LivePosition, q: Quote) {
    q.price.Some? && p.id in store
    && match MonitorOne(p, q.price.value, q.atr, q.accepted)
       case Held => store[p.id] == p
       case Saved(p') => store[p.id] == p'
       case Failed(_, _) => false
  }

  lemma StepKeepsId(p: LivePosition, price: real, atr: Option<real>, accepted: bool)
    ensures var o := MonitorOne(p, price, atr, accepted); o.Saved? ==> o.position.id == p.id
  {
    hide Evaluate;
    hide CloseUnits;
  }

  /** As long as nothing has failed, every position so far has been processed, none twice and none undone. */
  lemma {:induction false} EachIsProcessed(store: Store, ps: seq<LivePosition>, feed: Feed, k: nat, i: nat)
    requires i < |ps| && k <= |ps| && Distinct(ps) && PassSome(store, ps, feed, k).error.None?
    requires ps[i].id in store && store[ps[i].id] == ps[i]
    ensures if i < k then IsProcessed(PassSome(store, ps, feed, k).store, ps[i], feed(i))
            else ps[i].id in PassSome(store, ps, feed, k).store && PassSome(store, ps, feed, k).store[ps[i].id] == ps[i]
  {
    hide MonitorOne;
    if k > 0 {
      EachIsProcessed(store, ps, feed, k - 1, i);
      var p, q := ps[k - 1], feed(k - 1);
      if q.price.Some? {
        StepKeepsId(p, q.price.value, q.atr, q.accepted);
      }
    }
  }

  /** Every open position quoted at or beyond its stop has been closed as a whole at the quoted price. */
  ghost predicate StopsHonoured(ids: seq<string>, before: Store, feed: Feed, after: Store) {
    var ps := OpenPositions(ids, before);
    forall k :: 0 <= k < |ps| && feed(k).price.Some? && AtStop(ps[k], feed(k).price.value) ==>
      ps[k].id in after && IsClosedWhole(ps[k], after[ps[k].id], feed(k).price.value, SL_HIT)
  }

  /** A pass without an error leaves no position open that was quoted at or beyond its stop. */
  lemma PassHonoursStops(ids: seq<string>, store: Store, feed: Feed)
    requires ValidStore(ids, store) && WholePass(ids, store, feed).error.None?
    ensures StopsHonoured(ids, store, feed, WholePass(ids, store, feed).store)
  {
    var ps := OpenPositions(ids, store);
    OpenPositionsAreStored(ids, store);
    var after := WholePass(ids, store, feed).store;
    hide MonitorOne;
    hide PassSome;
    hide IsClosedWhole;
    forall k | 0 <= k < |ps| && feed(k).price.Some? && AtStop(ps[k], feed(k).price.value)
      ensures ps[k].id in after && IsClosedWhole(ps[k], after[ps[k].id], feed(k).price.value, SL_HIT)
    {
      assert ps[k] in ps;
      EachIsProcessed(store, ps, feed, |ps|, k);
      StopClosesThePosition(ps[k], feed(k).price.value, feed(k).atr);
      StopIsNotHeld(ps[k], feed(k).price.value, feed(k).atr);
    }
  }

  lemma StopIsNotHeld(p: LivePosition, price: real, atr: Option<real>)
    requires p.IsOpen() && AtStop(p, price)
    ensures MonitorOne(p, price, atr, true) != Held
  {
    hide RiskMultiple;
    hide ComputeTrailOffset;
  }

  class MonitorPositionsUseCase {
    const repo: PositionRepository

    constructor (repo: PositionRepository)
      ensures this.repo == repo
    {
      this.repo := repo;
    }

    method Run(feed: Feed) returns (r: Result<MonitorResult, MonitorError>)
      requires repo.Valid()
      modifies repo
      ensures repo.Valid() && repo.ids == old(repo.ids)
      ensures var pass := WholePass(old(repo.ids), old(repo.store), feed);
        repo.store == pass.store && r == if pass.error.Some? then Err(pass.error.value) else Ok(pass.result)
      ensures r.Ok? ==> StopsHonoured(old(repo.ids), old(repo.store), feed, repo.store)
    {
      var positions := repo.ListOpen();
      ghost var before := repo.store;
      OpenPositionsAreStored(repo.ids, repo.store);
      var result := NOTHING_DONE;
      for k := 0 to |positions|
        invariant repo.Valid() && repo.ids == old(repo.ids)
        invariant forall p :: p in positions ==> p.id in repo.store
        invariant PassSome(before, positions, feed, k) == Pass(repo.store, result, None)
      {
        var error;
        result, error := ProcessOne(positions[k], feed(k), result);
        assert PassSome(before, positions, feed, k + 1) == Pass(repo.store, result, error);
        if error.Some? {
          ErrorSticks(before, positions, feed, k + 1, |positions|);
          return Err(error.value);
        }
      }
      PassHonoursStops(repo.ids, before, feed);
      r := Ok(result);
    }

    /** The body of the loop: evaluate, send the order if one is due, rebuild the position, save it, count. */
    method ProcessOne(p: LivePosition, q: Quote, result: MonitorResult)
      returns (result': MonitorResult, error: Option<MonitorError>)
      requires repo.Valid() && p.id in repo.store
      modifies repo
      ensures repo.Valid() && repo.ids == old(repo.ids) && repo.store.Keys == old(repo.store.Keys)
      ensures Pass(repo.store, result', error) == Process(Pass(old(repo.store), result, None), p, q)
      ensures error.None? && p.IsOpen() && AtStop(p, q.price.value) ==>
        IsClosedWhole(p, repo.store[p.id], q.price.value, SL_HIT)
    {
      if p.IsOpen() && q.price.Some? && AtStop(p, q.price.value) {
        StopClosesThePosition(p, q.price.value, q.atr);
        StopIsNotHeld(p, q.price.value, q.atr);
      }
      hide IsClosedWhole;
      hide AtStop;
      result', error := result, None;
      if q.price.None? {
        return result, Some(PriceUnavailable);
      }
      var price := q.price.value;
      var decision := Evaluate(p, price, q.atr);
      if decision.Hold? {
        return result.(held := result.held + 1), None;
      }
      var updated: LivePosition;
      if decision.Close? || decision.PartialClose? {
        if !q.accepted {
          return result, Some(ExchangeFailed);
        }
        updated := if decision.Close? then ClosedPosition(p, price, decision.closeStatus)
                   else PartiallyClosedPosition(p, price, CloseUnits(p.units, decision.pct));
      } else {
        updated := MovedStop(p, price, q.atr, decision);
      }
      if !updated.Valid() {
        return result, Some(InvalidPosition);
      }
      repo.Save(updated);
      result' := Count(result, decision);
    }
  }

  lemma {:induction false} OpenPositionsAreStored(ids: seq<string>, store: Store)
    requires ValidStore(ids, store)
    ensures Distinct(OpenPositions(ids, store))
    ensures forall p :: p in OpenPositions(ids, store) ==> p.id in store && store[p.id] == p && p.IsOpen()
  {
    OpenPrefix(ids, store, |ids|);
    assert ids[..|ids|] == ids;
  }

  lemma {:induction false} OtherPositionsStay(ids: seq<string>, store: Store, p: LivePosition)
    requires p.id !in ids
    ensures OpenPositions(ids, store[p.id := p]) == OpenPositions(ids, store)
  {
    if ids != [] {
      OtherPositionsStay(Init(ids), store, p);
      assert Last(ids) in ids;
    }
  }

  /** A position saved for the first time joins the open ones. */
  lemma OpenAfterSaving(ids: seq<string>, store: Store, p: LivePosition)
    requires p.id !in ids && p.IsOpen()
    ensures OpenPositions(ids + [p.id], store[p.id := p]) == OpenPositions(ids, store) + [p]
  {
    OtherPositionsStay(ids, store, p);
    assert Init(ids + [p.id]) == ids;
  }

  lemma {:induction false} OpenPrefix(ids: seq<string>, store: Store, n: nat)
    requires ValidStore(ids, store) && n <= |ids|
    ensures Distinct(OpenPositions(ids[..n], store))
    ensures forall p :: p in OpenPositions(ids[..n], store) ==>
      p.id in ids[..n] && p.id in store && store[p.id] == p && p.IsOpen()
  {
    if n > 0 {
      OpenPrefix(ids, store, n - 1);
      assert Init(ids[..n]) == ids[..n - 1] && ids[n - 1] !in ids[..n - 1];
      var before := OpenPositions(ids[..n - 1], store);
      assert forall i :: 0 <= i < |before| ==> before[i] in before;
    }
  }

  lemma {:induction false} ErrorSticks(store: Store, ps: seq<LivePosition>, feed: Feed, k: nat, n: nat)
    requires k <= n <= |ps| && PassSome(store, ps, feed, k).error.Some?
    ensures PassSome(store, ps, feed, n) == PassSome(store, ps, feed, k)
  {
    if k < n {
      ErrorSticks(store, ps, feed, k, n - 1);
    }
  }

  /** On normal return every open position has been counted exactly once. */
  lemma {:induction false} EveryPositionIsCountedOnce(store: Store, ps: seq<LivePosition>, feed: Feed, k: nat)
    requires k <= |ps| && PassSome(store, ps, feed, k).error.None?
    ensures var r := PassSome(store, ps, feed, k).result;
      r.closed + r.held + r.partialCloses + r.slUpdates + r.beActivations + r.trailActivations == k
  {
    hide MonitorOne;
    hide Evaluate;
    if k > 0 {
      EveryPositionIsCountedOnce(store, ps, feed, k - 1);
    }
  }

  // ---------- Whole runs ----------

  function AfterPasses(ids: seq<string>, store: Store, feeds: seq<Feed>): Store {
    if feeds == [] then store else WholePass(ids, AfterPasses(ids, store, Init(feeds)), Last(feeds)).store
  }

  /** Every ATR supplied for an open position is within the bound for that position. */
  ghost predicate FeedWithinBound(ids: seq<string>, store: Store, feed: Feed) {
    var ps := OpenPositions(ids, store);
    forall k :: 0 <= k < |ps| ==> AtrWithinBound(ps[k], feed(k).atr)
  }

  ghost predicate FeedsWithinBound(ids: seq<string>, store: Store, feeds: seq<Feed>) {
    feeds == [] || (FeedsWithinBound(ids, store, Init(feeds))
                    && FeedWithinBound(ids, AfterPasses(ids, store, Init(feeds)), Last(feeds)))
  }

  /** after is what before has become: the same positions, all safe, each one ratcheted. */
  ghost predicate StoreRatcheted(before: Store, after: Store) {
    after.Keys == before.Keys && forall id :: id in before ==> Safe(after[id]) && Ratcheted(before[id], after[id])
  }

  lemma RatchetIsTransitive(p: LivePosition, q: LivePosition, r: LivePosition)
    requires Ratcheted(p, q) && Ratcheted(q, r)
    ensures Ratcheted(p, r)
  {
  }

  /** ps lists distinct open positions of the store. */
  ghost predicate Listed(ps: seq<LivePosition>, store: Store) {
    Distinct(ps) && forall i :: 0 <= i < |ps| ==> ps[i].id in store && store[ps[i].id] == ps[i] && ps[i].IsOpen()
  }

  lemma {:induction false} PassRatchets(store: Store, ps: seq<LivePosition>, feed: Feed, k: nat)
    requires Listed(ps, store) && k <= |ps|
    requires forall i :: 0 <= i < |ps| ==> AtrWithinBound(ps[i], feed(i).atr)
    requires forall id :: id in store ==> Safe(store[id])
    ensures StoreRatcheted(store, PassSome(store, ps, feed, k).store)
  {
    hide Safe;
    hide Ratcheted;
    hide Process;
    hide AtrWithinBound;
    if k == 0 {
      SafeIsRatcheted(store);
    } else {
      PassRatchets(store, ps, feed, k - 1);
      ProcessRatchets(store, PassSome(store, ps, feed, k - 1), ps[k - 1], feed(k - 1));
    }
  }

  lemma ProcessRatchets(store: Store, mid: Pass, p: LivePosition, q: Quote)
    requires StoreRatcheted(store, mid.store) && p.id in store && store[p.id] == p && Safe(p)
      && AtrWithinBound(p, q.atr)
    ensures StoreRatcheted(store, Process(mid, p, q).store)
  {
    hide Safe;
    hide Ratcheted;
    hide MonitorOne;
    if q.price.Some? {
      var o := MonitorOne(p, q.price.value, q.atr, q.accepted);
      StepRatchets(p, q.price.value, q.atr, q.accepted);
      if o.Saved? {
        ReplacingKeepsRatchet(store, mid.store, p, o.position);
      }
    }
  }

  lemma ReplacingKeepsRatchet(before: Store, mid: Store, p: LivePosition, p': LivePosition)
    requires StoreRatcheted(before, mid) && p.id in before && before[p.id] == p && Safe(p') && Ratcheted(p, p')
    ensures StoreRatcheted(before, mid[p.id := p'])
  {
    hide Safe;
    hide Ratcheted;
  }

  lemma OpenPositionsAreListed(ids: seq<string>, store: Store)
    requires ValidStore(ids, store)
    ensures Listed(OpenPositions(ids, store), store)
  {
    OpenPositionsAreStored(ids, store);
    var ps := OpenPositions(ids, store);
    assert forall i :: 0 <= i < |ps| ==> ps[i] in ps;
  }

  /** Main result: from positions that are safe, any number of passes, at any prices and with any exchange
      failures, only tightens stops, shrinks positions and advances flags, as long as every supplied ATR is
      within the bound. */
  lemma {:induction false} RunsRatchet(ids: seq<string>, store: Store, feeds: seq<Feed>)
    requires ValidStore(ids, store) && FeedsWithinBound(ids, store, feeds)
    requires forall id :: id in store ==> Safe(store[id])
    ensures StoreRatcheted(store, AfterPasses(ids, store, feeds)) && ValidStore(ids, AfterPasses(ids, store, feeds))
  {
    hide Safe;
    hide Ratcheted;
    if feeds == [] {
      SafeIsRatcheted(store);
    } else {
      var mid := AfterPasses(ids, store, Init(feeds));
      RunsRatchet(ids, store, Init(feeds));
      OpenPositionsAreListed(ids, mid);
      PassRatchets(mid, OpenPositions(ids, mid), Last(feeds), |OpenPositions(ids, mid)|);
      var after := AfterPasses(ids, store, feeds);
      forall id | id in store
        ensures Ratcheted(store[id], after[id])
      {
        RatchetIsTransitive(store[id], mid[id], after[id]);
      }
      RatchetKeepsStoreValid(ids, store, after);
    }
  }

  /** Whatever went before, the last pass of a run, if it has no error, leaves no position open that it saw quoted at
      or beyond its stop. */
  lemma RunHonoursStops(ids: seq<string>, store: Store, feeds: seq<Feed>)
    requires feeds != [] && ValidStore(ids, AfterPasses(ids, store, Init(feeds)))
    requires WholePass(ids, AfterPasses(ids, store, Init(feeds)), Last(feeds)).error.None?
    ensures AfterPasses(ids, store, []) == store
    ensures StopsHonoured(ids, AfterPasses(ids, store, Init(feeds)), Last(feeds), AfterPasses(ids, store, feeds))
  {
    PassHonoursStops(ids, AfterPasses(ids, store, Init(feeds)), Last(feeds));
    hide StopsHonoured;
  }

  lemma SafeIsRatcheted(store: Store)
    requires forall id :: id in store ==> Safe(store[id])
    ensures StoreRatcheted(store, store)
  {
  }

  lemma RatchetKeepsStoreValid(ids: seq<string>, before: Store, after: Store)
    requires ValidStore(ids, before) && StoreRatcheted(before, after)
    ensures ValidStore(ids, after)
  {
    forall id | id in after
      ensures after[id].id == id
    {
      assert Ratcheted(before[id], after[id]);
    }
  }

  /** As composed there is no ATR provider, and every run is within the bound. */
  lemma {:induction false} NoAtrIsWithinBound(ids: seq<string>, store: Store, feeds: seq<Feed>)
    requires forall f: Feed, k :: f in feeds ==> f(k).atr == None
    ensures FeedsWithinBound(ids, store, feeds)
  {
    if feeds != [] {
      assert forall f :: f in Init(feeds) ==> f in feeds;
      assert Last(feeds) in feeds;
      NoAtrIsWithinBound(ids, store, Init(feeds));
    }
  }

  /** A freshly opened position, with its stop on the losing side, is safe. */
  lemma FreshPositionIsSafe(p: LivePosition)
    requires p.Valid() && p.status == OPEN && !p.trailActivated && !p.breakEvenActivated
    requires p.slPrice.Some?
      ==> (if p.side == Buy then p.slPrice.value <= p.entryPrice else p.slPrice.value >= p.entryPrice)
    ensures Safe(p)
  {
  }

  // ---------- Passes never open anything ----------

  function OpenCount(ids: seq<string>, store: Store): nat {
    |OpenPositions(ids, store)|
  }

  lemma {:induction false} FewerOpen(ids: seq<string>, before: Store, after: Store)
    requires forall id :: id in ids && id in after && after[id].IsOpen() ==> id in before && before[id].IsOpen()
    ensures OpenCount(ids, after) <= OpenCount(ids, before)
  {
    if ids != [] {
      assert Last(ids) in ids;
      FewerOpen(Init(ids), before, after);
    }
  }

  /** after has the same positions as before, and none of them has been reopened. */
  ghost predicate NothingOpened(before: Store, after: Store) {
    after.Keys == before.Keys
    && forall id :: id in after ==> (after[id].id == before[id].id && (after[id].IsOpen() ==> before[id].IsOpen()))
  }

  lemma {:induction false} PassOpensNothing(store: Store, ps: seq<LivePosition>, feed: Feed, k: nat)
    requires Listed(ps, store) && k <= |ps|
    ensures NothingOpened(store, PassSome(store, ps, feed, k).store)
  {
    if k > 0 {
      PassOpensNothing(store, ps, feed, k - 1);
      ProcessOpensNothing(store, PassSome(store, ps, feed, k - 1), ps[k - 1], feed(k - 1));
    }
  }

  lemma ProcessOpensNothing(store: Store, mid: Pass, p: LivePosition, q: Quote)
    requires NothingOpened(store, mid.store) && p.id in store && store[p.id] == p && p.IsOpen()
    ensures NothingOpened(store, Process(mid, p, q).store)
  {
    hide MonitorOne;
    if q.price.Some? {
      StepKeepsId(p, q.price.value, q.atr, q.accepted);
    }
  }

  // ---------- Positions opened without an entry ATR ----------

  ghost predicate NoEntryAtr(p: LivePosition) {
    p.Valid() && !p.HasEntryAtr() && !p.trailActivated && !p.breakEvenActivated
  }

  ghost predicate StopsFrozen(before: Store, after: Store) {
    after.Keys == before.Keys && forall id :: id in before ==>
      (NoEntryAtr(after[id]) && after[id].id == before[id].id && after[id].slPrice == before[id].slPrice)
  }

  lemma {:induction false} PassFreezesStops(store: Store, ps: seq<LivePosition>, feed: Feed, k: nat)
    requires Listed(ps, store) && k <= |ps| && StopsFrozen(store, store)
    ensures StopsFrozen(store, PassSome(store, ps, feed, k).store)
  {
    if k > 0 {
      PassFreezesStops(store, ps, feed, k - 1);
      ProcessFreezesStops(store, PassSome(store, ps, feed, k - 1), ps[k - 1], feed(k - 1));
    }
  }

  lemma ProcessFreezesStops(store: Store, mid: Pass, p: LivePosition, q: Quote)
    requires StopsFrozen(store, mid.store) && p.id in store && store[p.id] == p && NoEntryAtr(p)
    ensures StopsFrozen(store, Process(mid, p, q).store)
  {
    hide MonitorOne;
    if q.price.Some? {
      var o := MonitorOne(p, q.price.value, q.atr, q.accepted);
      StepKeepsId(p, q.price.value, q.atr, q.accepted);
      WithoutEntryAtrTheStopNeverMoves(p, q.price.value, q.atr, q.accepted);
      SavedIsValid(p, q.price.value, q.atr, q.accepted);
    }
  }

  lemma SavedIsValid(p: LivePosition, price: real, atr: Option<real>, accepted: bool)
    ensures var o := MonitorOne(p, price, atr, accepted); o.Saved? ==> o.position.Valid()
  {
    hide Evaluate;
    hide CloseUnits;
  }

  /** Positions that do not know their entry ATR, which is how the execution engine saves every position it
      opens, never break even, never trail and keep the stop they were opened with, in every run. */
  lemma {:induction false} RunsWithoutEntryAtrNeverMoveAStop(ids: seq<string>, store: Store, feeds: seq<Feed>)
    requires ValidStore(ids, store) && forall id :: id in store ==> NoEntryAtr(store[id])
    ensures StopsFrozen(store, AfterPasses(ids, store, feeds)) && ValidStore(ids, AfterPasses(ids, store, feeds))
  {
    hide NoEntryAtr;
    if feeds != [] {
      var mid := AfterPasses(ids, store, Init(feeds));
      RunsWithoutEntryAtrNeverMoveAStop(ids, store, Init(feeds));
      OpenPositionsAreListed(ids, mid);
      PassFreezesStops(mid, OpenPositions(ids, mid), Last(feeds), |OpenPositions(ids, mid)|);
    }
  }
}
