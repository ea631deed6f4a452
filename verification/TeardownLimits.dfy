/** Each assumption of the teardown theorems is needed: drop just that one, keep all the
    others, and there is a run in which a finalizer goes while a resource it guards still
    stands. */
module TeardownLimits {
  import opened DesireStore
  import opened Teardown

  /** All assumptions but `skip`. */
  function But(skip: Assumption): set<Assumption> { ALL_NEEDS - {skip} }

  /** `path` leads from the start to `w` and violates at most `skip`. */
  ghost predicate Reaches(path: Path, w: World, skip: Assumption) {
    Leads(Initial(), path, w, But(skip))
  }

  /** Such a path is a run of the protocol that meets every other assumption. */
  lemma ReachedByRun(path: Path, w: World, skip: Assumption)
    requires Reaches(path, w, skip)
    ensures Legal(Initial(), path.ops) && Run(Initial(), path.ops) == w
    ensures AssumedRun(Initial(), path.ops, But(skip))
  {
    PathIsRun(Initial(), path, w);
    PathMeets(Initial(), path, w, But(skip));
  }

  lemma Next(path: Path, w: World, op: Op, skip: Assumption) returns (path': Path, w': World)
    requires Reaches(path, w, skip) && Enabled(w, op) && Assumed(w, op, But(skip))
    ensures Reaches(path', w', skip) && w' == Step(w, op)
  {
    path', w' := Go(Initial(), path, w, op, But(skip));
  }

  lemma Begin(skip: Assumption) returns (path: Path, w: World)
    ensures Reaches(path, w, skip) && w == Initial()
  {
    path, w := Path([Initial()], []), Initial();
  }

  /** A world with pool 0 and no placement object. */
  function OnePool(store: Store, c: Cluster, cpc: ClusterPc, pool: Pool, pc: PoolPc): World {
    World(store, c, false, map[0 := pool], cpc, map[0 := pc])
  }

  const DOC := PoolDoc(0)
  const APPLIED := Desire(Apply("{}"), 1)
  const FLIPPED := Desire(Remove, 1)

  /** The tables once pool 0 has been applied. */
  const ONE_PUT := Store(1, map[DOC := APPLIED], map[], map[], map[DOC := [APPLIED]], {})

  const RUNNING := Pool(false, true)
  const DYING := Pool(true, true)

  /** The finalizer is about to go although the latest desire was not carried out. */
  ghost predicate Unsafe(w: World) {
    Enabled(w, ByPool(0, PoolDrop)) && !PoolMayGo(w, 0)
  }

  /** Create pool 0 under its finalizer. */
  lemma AddPool(path: Path, w: World, skip: Assumption) returns (path': Path, w': World)
    requires Reaches(path, w, skip) && w.pools == map[] && w.ppc == map[] && !w.placement
    requires skip.NoLatePools? || !w.cluster.deleting
    ensures Reaches(path', w', skip) && w' == OnePool(w.store, w.cluster, w.cpc, RUNNING, PIdle)
  {
    path', w' := Next(path, w, FromOutside(CreatePool(0)), skip);
    path', w' := Next(path', w', ByPool(0, PoolAddFinalizer), skip);
    assert w'.pools == map[0 := RUNNING] && w'.ppc == map[0 := PIdle];
  }

  /** Let pool 0's reconciler write its desire. */
  lemma ApplyPool(path: Path, w: World, skip: Assumption) returns (path': Path, w': World)
    requires Reaches(path, w, skip) && w == OnePool(Initial().store, w.cluster, w.cpc, RUNNING, PIdle)
    requires w.cluster.present && w.cluster.placed
    ensures Reaches(path', w', skip) && w' == OnePool(ONE_PUT, w.cluster, w.cpc, RUNNING, PIdle)
  {
    path', w' := Next(path, w, ByPool(0, PoolStart), skip);
    assert w'.ppc == map[0 := PApplying];
    path', w' := Next(path', w', ByPool(0, PoolApply("{}")), skip);
    assert w'.ppc == map[0 := PIdle];
    assert PutsOf(Initial().store, DOC) + [APPLIED] == [APPLIED];
    assert w'.store == ONE_PUT;
  }

  /** Mark pool 0 for deletion and start its delete reconcile. */
  lemma DeletePoolZero(path: Path, w: World, skip: Assumption) returns (path': Path, w': World)
    requires Reaches(path, w, skip) && w.pools == map[0 := RUNNING] && w.ppc == map[0 := PIdle]
    ensures Reaches(path', w', skip) && w' == w.(pools := map[0 := DYING], ppc := map[0 := PListing])
  {
    path', w' := Next(path, w, FromOutside(DeletePool(0)), skip);
    assert w'.pools == map[0 := DYING];
    path', w' := Next(path', w', ByPool(0, PoolStart), skip);
    assert w'.ppc == map[0 := PListing];
  }

  /** The delete reconcile finds no placed cluster and drops the finalizer directly. */
  lemma DropDirectly(path: Path, w: World, skip: Assumption, readOk: bool) returns (path': Path, w': World)
    requires Reaches(path, w, skip) && w.store == ONE_PUT && w.ppc == map[0 := PListing]
    requires if readOk then !w.cluster.present else skip.PoolReads?
    ensures Reaches(path', w', skip) && Unsafe(w')
  {
    path', w' := Next(path, w, ByPool(0, PoolList(readOk)), skip);
    assert w'.ppc == map[0 := PDropping(true)];
    assert PutsOf(w'.store, DOC) == [APPLIED];
  }

  lemma DeleteAndDrop(path: Path, w: World, skip: Assumption, readOk: bool) returns (path': Path, w': World)
    requires Reaches(path, w, skip) && w.pools == map[0 := RUNNING] && w.ppc == map[0 := PIdle]
    requires w.store == ONE_PUT && if readOk then !w.cluster.present else skip.PoolReads?
    ensures Reaches(path', w', skip) && Unsafe(w')
  {
    path', w' := DeletePoolZero(path, w, skip);
    path', w' := DropDirectly(path', w', skip, readOk);
  }

  /** A failed list of clusters passes for "no cluster". */
  lemma ReadsNeeded() returns (path: Path, w: World)
    ensures Reaches(path, w, PoolReads) && Unsafe(w)
  {
    path, w := Begin(PoolReads);
    path, w := Next(path, w, FromOutside(SetPlacementRef), PoolReads);
    path, w := AddPool(path, w, PoolReads);
    path, w := ApplyPool(path, w, PoolReads);
    path, w := DeleteAndDrop(path, w, PoolReads, false);
  }

  /** A cluster deleted before it has its finalizer vanishes at once, pools and all
      their desires notwithstanding. */
  lemma FinalizerNeeded() returns (path: Path, w: World)
    ensures Reaches(path, w, UnderFinalizer) && Unsafe(w)
  {
    path, w := Begin(UnderFinalizer);
    path, w := Next(path, w, FromOutside(SetPlacementRef), UnderFinalizer);
    path, w := AddPool(path, w, UnderFinalizer);
    path, w := ApplyPool(path, w, UnderFinalizer);
    path, w := Next(path, w, FromOutside(DeleteCluster), UnderFinalizer);
    path, w := DeleteAndDrop(path, w, UnderFinalizer, true);
  }

  /** The cluster's delete reconcile finds no placement. */
  lemma FindUnplaced() returns (path: Path, w: World)
    ensures Reaches(path, w, NoLatePlacement)
    ensures w == OnePool(Initial().store, Cluster(true, true, true, false), CUnplaced, RUNNING, PIdle)
  {
    path, w := Begin(NoLatePlacement);
    path, w := Next(path, w, ByCluster(AddFinalizer), NoLatePlacement);
    path, w := AddPool(path, w, NoLatePlacement);
    path, w := Next(path, w, FromOutside(DeleteCluster), NoLatePlacement);
    path, w := Next(path, w, ByCluster(Start), NoLatePlacement);
    path, w := Next(path, w, ByCluster(Resolve(true)), NoLatePlacement);
  }

  /** A reference set now lets the pool write its desire. */
  lemma PlaceLate() returns (path: Path, w: World)
    ensures Reaches(path, w, NoLatePlacement)
    ensures w == OnePool(ONE_PUT, Cluster(true, true, true, true), CUnplaced, RUNNING, PIdle)
  {
    path, w := FindUnplaced();
    path, w := Next(path, w, FromOutside(SetPlacementRef), NoLatePlacement);
    path, w := ApplyPool(path, w, NoLatePlacement);
  }

  /** The reconcile goes on from what it found. */
  lemma FinishUnplaced(path: Path, w: World) returns (path': Path, w': World)
    requires Reaches(path, w, NoLatePlacement) && w.cpc == CUnplaced
    ensures Reaches(path', w', NoLatePlacement) && !w'.cluster.present
    ensures w'.store == w.store && w'.pools == w.pools && w'.ppc == w.ppc
  {
    path', w' := Next(path, w, ByCluster(Unplace(true)), NoLatePlacement);
    path', w' := Next(path', w', ByCluster(Drop), NoLatePlacement);
  }

  /** A placement reference set after the cluster's delete reconcile found none lets a
      pool write a desire that nobody takes back. */
  lemma LatePlacementHarms() returns (path: Path, w: World)
    ensures Reaches(path, w, NoLatePlacement) && Unsafe(w)
  {
    path, w := PlaceLate();
    path, w := FinishUnplaced(path, w);
    path, w := DeleteAndDrop(path, w, NoLatePlacement, true);
  }

  /** A placed cluster without pools and being deleted. */
  function NoPools(cpc: ClusterPc): World {
    World(Initial().store, Cluster(true, true, true, true), false, map[], cpc, map[])
  }

  lemma DeletePlacedCluster() returns (path: Path, w: World)
    ensures Reaches(path, w, NoLatePools) && w == NoPools(CIdle)
  {
    path, w := Begin(NoLatePools);
    path, w := Next(path, w, ByCluster(AddFinalizer), NoLatePools);
    path, w := Next(path, w, FromOutside(SetPlacementRef), NoLatePools);
    path, w := Next(path, w, FromOutside(DeleteCluster), NoLatePools);
  }

  /** The cluster's delete reconcile lists the pools: there are none. */
  lemma FindNoPools() returns (path: Path, w: World)
    ensures Reaches(path, w, NoLatePools) && w == NoPools(CFlipping(false, {}, map[]))
  {
    path, w := DeletePlacedCluster();
    path, w := Next(path, w, ByCluster(Start), NoLatePools);
    path, w := Next(path, w, ByCluster(ListPools({})), NoLatePools);
  }

  /** With nothing rendered there is nothing to wait for. */
  lemma PassEmptyCheck(path: Path, w: World) returns (path': Path, w': World)
    requires Reaches(path, w, NoLatePools) && w.cpc == CFlipping(false, {}, map[])
    ensures Reaches(path', w', NoLatePools) && w' == w.(cpc := CSweeping({}))
  {
    path', w' := Next(path, w, ByCluster(Flipped), NoLatePools);
    path', w' := Next(path', w', ByCluster(Checked), NoLatePools);
  }

  lemma FinishEmptySweep(path: Path, w: World) returns (path': Path, w': World)
    requires Reaches(path, w, NoLatePools) && w.cpc == CFlipping(false, {}, map[])
    ensures Reaches(path', w', NoLatePools) && !w'.cluster.present
    ensures w'.store == w.store && w'.pools == w.pools && w'.ppc == w.ppc
  {
    path', w' := PassEmptyCheck(path, w);
    path', w' := Next(path', w', ByCluster(Swept(true)), NoLatePools);
    path', w' := Next(path', w', ByCluster(Drop), NoLatePools);
  }

  /** A pool created after the cluster's delete reconcile listed the pools is overlooked. */
  lemma LatePoolHarms() returns (path: Path, w: World)
    ensures Reaches(path, w, NoLatePools) && Unsafe(w)
  {
    path, w := FindNoPools();
    path, w := AddPool(path, w, NoLatePools);
    path, w := ApplyPool(path, w, NoLatePools);
    path, w := FinishEmptySweep(path, w);
    path, w := DeleteAndDrop(path, w, NoLatePools, true);
  }

  /** The tables once the applier has reported on the applied desire, and once the removal
      has been written in the same second. */
  const REPORTED := Store(1, map[DOC := APPLIED], map[DOC := Report(1, true)], map[],
                          map[DOC := [APPLIED]], {(DOC, APPLIED)})

  const SAME_SECOND := Store(1, map[DOC := FLIPPED], map[DOC := Report(1, true)], map[],
                             map[DOC := [APPLIED, FLIPPED]], {(DOC, APPLIED)})

  lemma ReportPool(path: Path, w: World) returns (path': Path, w': World)
    requires Reaches(path, w, PoolSeconds) && w.store == ONE_PUT
    ensures Reaches(path', w', PoolSeconds) && w' == w.(store := REPORTED)
  {
    path', w' := Next(path, w, FromOutside(Read(DOC)), PoolSeconds);
    assert w'.store.inbox == map[DOC := APPLIED];
    path', w' := Next(path', w', FromOutside(Reports(DOC, true)), PoolSeconds);
    assert w'.store.inbox == map[];
    assert w'.store == REPORTED;
  }

  lemma FlipInSameSecond(path: Path, w: World) returns (path': Path, w': World)
    requires Reaches(path, w, PoolSeconds) && w == OnePool(REPORTED, w.cluster, w.cpc, DYING, PListing)
    requires w.cluster.present && w.cluster.placed
    ensures Reaches(path', w', PoolSeconds) && w' == OnePool(SAME_SECOND, w.cluster, w.cpc, DYING, PChecking(1))
  {
    path', w' := Next(path, w, ByPool(0, PoolList(true)), PoolSeconds);
    assert w'.ppc == map[0 := PFlipping];
    path', w' := Next(path', w', ByPool(0, PoolFlip), PoolSeconds);
    assert w'.ppc == map[0 := PChecking(1)];
    assert PutsOf(REPORTED, DOC) + [FLIPPED] == [APPLIED, FLIPPED];
    assert w'.store == SAME_SECOND;
  }

  /** The old status passes the check for the new desire. */
  lemma PassWithOldStatus(path: Path, w: World) returns (path': Path, w': World)
    requires Reaches(path, w, PoolSeconds) && w.store == SAME_SECOND && w.ppc == map[0 := PChecking(1)]
    ensures Reaches(path', w', PoolSeconds) && w' == w.(ppc := map[0 := PSweeping])
  {
    path', w' := Next(path, w, ByPool(0, PoolCheck), PoolSeconds);
    assert w'.ppc == map[0 := PSweeping];
  }

  lemma SweepUnconfirmed(path: Path, w: World) returns (path': Path, w': World)
    requires Reaches(path, w, PoolSeconds) && w.store == SAME_SECOND && w.ppc == map[0 := PSweeping]
    ensures Reaches(path', w', PoolSeconds) && Unsafe(w')
  {
    path', w' := Next(path, w, ByPool(0, PoolSweep(true)), PoolSeconds);
    assert w'.ppc == map[0 := PDropping(false)];
    assert Last(PutsOf(w'.store, DOC)) == FLIPPED;
  }

  /** A removal written in the same second as the desire before it is confirmed by the
      status of that earlier desire. */
  lemma SameSecondHarms() returns (path: Path, w: World)
    ensures Reaches(path, w, PoolSeconds) && Unsafe(w)
  {
    path, w := Begin(PoolSeconds);
    path, w := Next(path, w, FromOutside(SetPlacementRef), PoolSeconds);
    path, w := AddPool(path, w, PoolSeconds);
    path, w := ApplyPool(path, w, PoolSeconds);
    path, w := ReportPool(path, w);
    path, w := DeletePoolZero(path, w, PoolSeconds);
    path, w := FlipInSameSecond(path, w);
    path, w := PassWithOldStatus(path, w);
    path, w := SweepUnconfirmed(path, w);
  }

  // ---- The cluster's finalizer ----

  const CLUSTER_DOC := ClusterDoc(7)
  const ONE_CLUSTER_PUT := Store(1, map[CLUSTER_DOC := APPLIED], map[], map[], map[CLUSTER_DOC := [APPLIED]], {})

  /** A bound cluster without pools. */
  function Bound(store: Store, deleting: bool, placed: bool, cpc: ClusterPc): World {
    World(store, Cluster(true, deleting, true, placed), true, map[], cpc, map[])
  }

  lemma BindCluster(skip: Assumption, placed: bool) returns (path: Path, w: World)
    ensures Reaches(path, w, skip) && w == Bound(Initial().store, false, placed, CIdle)
  {
    path, w := Begin(skip);
    path, w := Next(path, w, ByCluster(AddFinalizer), skip);
    path, w := Next(path, w, FromOutside(BindPlacement), skip);
    if placed {
      path, w := Next(path, w, FromOutside(SetPlacementRef), skip);
    }
  }

  lemma StartApplying(skip: Assumption, placed: bool) returns (path: Path, w: World)
    ensures Reaches(path, w, skip) && w == Bound(Initial().store, false, placed, CApplying)
  {
    path, w := BindCluster(skip, placed);
    path, w := Next(path, w, ByCluster(Start), skip);
  }

  /** Document 7 is applied. */
  lemma ApplySeven(skip: Assumption, placed: bool) returns (path: Path, w: World)
    ensures Reaches(path, w, skip) && w == Bound(ONE_CLUSTER_PUT, false, placed, CIdle)
  {
    path, w := StartApplying(skip, placed);
    path, w := Next(path, w, ByCluster(ApplyOne(7, "{}")), skip);
    assert PutsOf(Initial().store, CLUSTER_DOC) + [APPLIED] == [APPLIED];
    assert w.store == ONE_CLUSTER_PUT;
    path, w := Next(path, w, ByCluster(Stop), skip);
  }

  /** Then the cluster is deleted. */
  lemma StartDeleting(path: Path, w: World, skip: Assumption, store: Store, placed: bool)
    returns (path': Path, w': World)
    requires Reaches(path, w, skip) && w == Bound(store, false, placed, CIdle)
    ensures Reaches(path', w', skip)
    ensures w' == Bound(store, true, placed, if placed then CListing else CResolving)
  {
    path', w' := Next(path, w, FromOutside(DeleteCluster), skip);
    path', w' := Next(path', w', ByCluster(Start), skip);
  }

  /** A failed lookup of the placement passes for "nothing was ever placed". */
  lemma PlacementReadsNeeded() returns (path: Path, w: World)
    ensures Reaches(path, w, PlacementReads)
    ensures Enabled(w, ByCluster(Drop)) && PutsOf(w.store, CLUSTER_DOC) == [APPLIED] && !NothingLeft(w.store)
  {
    path, w := ApplySeven(PlacementReads, false);
    path, w := StartDeleting(path, w, PlacementReads, ONE_CLUSTER_PUT, false);
    path, w := Next(path, w, ByCluster(Resolve(false)), PlacementReads);
    path, w := Next(path, w, ByCluster(Unplace(true)), PlacementReads);
    assert PutsOf(w.store, CLUSTER_DOC) == [APPLIED] && !TornDown(w.store, CLUSTER_DOC);
  }

  /** The delete reconcile renders nothing. */
  lemma RenderNothing() returns (path: Path, w: World)
    ensures Reaches(path, w, RendersAll)
    ensures w == Bound(ONE_CLUSTER_PUT, true, true, CFlipping(false, {}, map[]))
  {
    path, w := ApplySeven(RendersAll, true);
    path, w := StartDeleting(path, w, RendersAll, ONE_CLUSTER_PUT, true);
    path, w := Next(path, w, ByCluster(ListPools({})), RendersAll);
  }

  /** So it has nothing to flip or to wait for. */
  lemma WaitForNothing() returns (path: Path, w: World)
    ensures Reaches(path, w, RendersAll) && w == Bound(ONE_CLUSTER_PUT, true, true, CSweeping({}))
  {
    path, w := RenderNothing();
    path, w := Next(path, w, ByCluster(Flipped), RendersAll);
    path, w := Next(path, w, ByCluster(Checked), RendersAll);
  }

  /** A document that was applied but is not rendered on deletion keeps its resource when
      the cluster's finalizer goes. */
  lemma RenderingNeeded() returns (path: Path, w: World)
    ensures Reaches(path, w, RendersAll)
    ensures Enabled(w, ByCluster(Drop)) && PutsOf(w.store, CLUSTER_DOC) == [APPLIED] && !NothingLeft(w.store)
  {
    path, w := WaitForNothing();
    path, w := Next(path, w, ByCluster(Swept(true)), RendersAll);
    assert PutsOf(w.store, CLUSTER_DOC) == [APPLIED] && !TornDown(w.store, CLUSTER_DOC);
  }

  /** The tables once the applier has reported on the cluster's document, and once its
      removal has been written in the same second. */
  const CLUSTER_REPORTED := Store(1, map[CLUSTER_DOC := APPLIED], map[CLUSTER_DOC := Report(1, true)], map[],
                                  map[CLUSTER_DOC := [APPLIED]], {(CLUSTER_DOC, APPLIED)})

  const CLUSTER_SAME_SECOND := Store(1, map[CLUSTER_DOC := FLIPPED], map[CLUSTER_DOC := Report(1, true)], map[],
                                     map[CLUSTER_DOC := [APPLIED, FLIPPED]], {(CLUSTER_DOC, APPLIED)})

  lemma ReportSeven() returns (path: Path, w: World)
    ensures Reaches(path, w, ClusterSeconds) && w == Bound(CLUSTER_REPORTED, false, true, CIdle)
  {
    path, w := ApplySeven(ClusterSeconds, true);
    path, w := Next(path, w, FromOutside(Read(CLUSTER_DOC)), ClusterSeconds);
    assert w.store.inbox == map[CLUSTER_DOC := APPLIED];
    path, w := Next(path, w, FromOutside(Reports(CLUSTER_DOC, true)), ClusterSeconds);
    assert w.store.inbox == map[];
    assert w.store == CLUSTER_REPORTED;
  }

  lemma FlipSeven() returns (path: Path, w: World)
    ensures Reaches(path, w, ClusterSeconds)
    ensures w == Bound(CLUSTER_SAME_SECOND, true, true, CFlipping(false, {7}, map[7 := 1]))
  {
    path, w := ReportSeven();
    path, w := StartDeleting(path, w, ClusterSeconds, CLUSTER_REPORTED, true);
    path, w := Next(path, w, ByCluster(ListPools({7})), ClusterSeconds);
    path, w := Next(path, w, ByCluster(Flip(7)), ClusterSeconds);
    assert PutsOf(CLUSTER_REPORTED, CLUSTER_DOC) + [FLIPPED] == [APPLIED, FLIPPED];
    assert w.store == CLUSTER_SAME_SECOND;
  }

  lemma CheckSeven() returns (path: Path, w: World)
    ensures Reaches(path, w, ClusterSeconds) && w == Bound(CLUSTER_SAME_SECOND, true, true, CSweeping({7}))
  {
    path, w := FlipSeven();
    path, w := Next(path, w, ByCluster(Flipped), ClusterSeconds);
    path, w := Next(path, w, ByCluster(CheckOne(7)), ClusterSeconds);
    assert {} + {7} == map[7 := 1].Keys;
    path, w := Next(path, w, ByCluster(Checked), ClusterSeconds);
  }

  /** A cluster document's removal, written in the same second as the desire before it, is
      confirmed by the status of that earlier desire. */
  lemma SameSecondHarmsCluster() returns (path: Path, w: World)
    ensures Reaches(path, w, ClusterSeconds)
    ensures Enabled(w, ByCluster(Drop)) && !RenderedGone(w) && !NothingLeft(w.store)
  {
    path, w := CheckSeven();
    path, w := Next(path, w, ByCluster(Swept(true)), ClusterSeconds);
    assert Last(PutsOf(w.store, CLUSTER_DOC)) == FLIPPED && !TornDown(w.store, CLUSTER_DOC);
  }
}
