/** Tearing down a cluster and its node pools across two controllers and an applier.

    A reconcile is a sequence of steps, each one read or write, and the steps of the
    cluster controller, of the pool reconcilers (one at a time per pool), of the
    placement controller, of users and of the applier interleave freely.  Any reconcile
    may stop after any step and start over.  The applier reads a desire and later writes
    a status that carries the desire's update time. */
module Teardown {
  import opened Basics
  import opened DesireStore

  /** `placed` is the placement reference in the cluster's status. */
  datatype Cluster = Cluster(present: bool, deleting: bool, finalizer: bool, placed: bool)

  datatype Pool = Pool(deleting: bool, finalizer: bool)

  /** Where the cluster reconciler is.  `pending` records that pools were listed,
      `times` the update times its upserts returned, `ok` the documents whose status it
      has found confirmed. */
  datatype ClusterPc =
    | CIdle
    | CApplying
    | CResolving
    | CListing
    | CFlipping(pending: bool, rendered: set<nat>, times: map<nat, nat>)
    | CChecking(pending: bool, times: map<nat, nat>, ok: set<nat>)
    | CSweeping(rendered: set<nat>)
    | CUnplaced
    | CDropping(confirmed: Option<set<nat>>)

  /** Where a pool's reconciler is; `direct` marks a drop without any desire. */
  datatype PoolPc =
    | PIdle
    | PApplying
    | PListing
    | PFlipping
    | PChecking(time: nat)
    | PSweeping
    | PDropping(direct: bool)

  datatype World = World(
    store: Store,
    cluster: Cluster,
    placement: bool,
    pools: map<nat, Pool>,
    cpc: ClusterPc,
    ppc: map<nat, PoolPc>)

  /** Users, the placement controller, the clock and the applier. */
  datatype Outside =
    | CreatePool(p: nat)
    | DeletePool(p: nat)
    | DeleteCluster
    | BindPlacement
    | SetPlacementRef
    | Time(now: nat)
    | Read(doc: Doc)
    | Reports(doc: Doc, ok: bool)

  datatype ClusterMove =
    | AddFinalizer
    | Start
    | ApplyOne(i: nat, content: string)
    | Resolve(readOk: bool)
    | ListPools(rendered: set<nat>)
    | Flip(i: nat)
    | Flipped
    | CheckOne(i: nat)
    | Checked
    | SweepOne(i: nat)
    | Swept(removed: bool)
    | Unplace(removed: bool)
    | Drop
    | Stop

  datatype PoolMove =
    | PoolAddFinalizer
    | PoolStart
    | PoolApply(content: string)
    | PoolList(readOk: bool)
    | PoolFlip
    | PoolCheck
    | PoolSweep(erased: bool)
    | PoolDrop
    | PoolStop

  datatype Op = FromOutside(o: Outside) | ByCluster(c: ClusterMove) | ByPool(p: nat, m: PoolMove)

  function Initial(): World {
    World(Store(1, map[], map[], map[], map[], {}), Cluster(true, false, false, false), false,
          map[], CIdle, map[])
  }

  function PcOf(w: World, p: nat): PoolPc { if p in w.ppc then w.ppc[p] else PIdle }

  // ---- What a step does to the tables ----

  function OutsideEffect(o: Outside): StoreOp {
    match o
    case Time(now) => Tick(now)
    case Read(doc) => ApplierReads(doc)
    case Reports(doc, ok) => ApplierReports(doc, ok)
    case _ => Nothing
  }

  function ClusterEffect(c: ClusterMove): StoreOp {
    match c
    case ApplyOne(i, content) => Put(ClusterDoc(i), Apply(content))
    case Flip(i) => Put(ClusterDoc(i), Remove)
    case SweepOne(i) => Erase(ClusterDoc(i))
    case _ => Nothing
  }

  function PoolEffect(p: nat, m: PoolMove): StoreOp {
    match m
    case PoolApply(content) => Put(PoolDoc(p), Apply(content))
    case PoolFlip => Put(PoolDoc(p), Remove)
    // a failed cleanup is only logged
    case PoolSweep(erased) => if erased then Erase(PoolDoc(p)) else Nothing
    case _ => Nothing
  }

  function Effect(op: Op): StoreOp {
    match op
    case FromOutside(o) => OutsideEffect(o)
    case ByCluster(c) => ClusterEffect(c)
    case ByPool(p, m) => PoolEffect(p, m)
  }

  // ---- When a step is possible ----

  predicate OutsideCan(w: World, o: Outside) {
    match o
    case CreatePool(p) => p !in w.pools
    case DeletePool(p) => p in w.pools
    case DeleteCluster => w.cluster.present
    case SetPlacementRef => w.cluster.present
    case _ => true
  }

  predicate ClusterCan(w: World, c: ClusterMove) {
    match c
    case AddFinalizer => w.cpc.CIdle? && w.cluster.present && !w.cluster.deleting
    case Start => w.cpc.CIdle? && w.cluster.present && w.cluster.finalizer
    case ApplyOne(i, content) => w.cpc.CApplying?
    case Resolve(readOk) => w.cpc.CResolving?
    case ListPools(rendered) => w.cpc.CListing?
    case Flip(i) => w.cpc.CFlipping? && i in w.cpc.rendered
    case Flipped => w.cpc.CFlipping? && w.cpc.times.Keys == w.cpc.rendered
    case CheckOne(i) => w.cpc.CChecking? && i in w.cpc.times
    case Checked => w.cpc.CChecking? && w.cpc.ok == w.cpc.times.Keys
    case SweepOne(i) => w.cpc.CSweeping? && i in w.cpc.rendered
    case Swept(removed) => w.cpc.CSweeping?
    case Unplace(removed) => w.cpc.CUnplaced?
    case Drop => w.cpc.CDropping?
    case Stop => true
  }

  predicate PoolCan(w: World, p: nat, m: PoolMove) {
    match m
    case PoolAddFinalizer => PcOf(w, p).PIdle? && p in w.pools && !w.pools[p].deleting
    case PoolStart => PcOf(w, p).PIdle? && p in w.pools && w.pools[p].finalizer
    case PoolApply(content) => PcOf(w, p).PApplying?
    case PoolList(readOk) => PcOf(w, p).PListing?
    case PoolFlip => PcOf(w, p).PFlipping?
    case PoolCheck => PcOf(w, p).PChecking?
    case PoolSweep(erased) => PcOf(w, p).PSweeping?
    case PoolDrop => PcOf(w, p).PDropping?
    case PoolStop => true
  }

  predicate Enabled(w: World, op: Op) {
    && CanDo(w.store, Effect(op))
    && match op
       case FromOutside(o) => OutsideCan(w, o)
       case ByCluster(c) => ClusterCan(w, c)
       case ByPool(p, m) => PoolCan(w, p, m)
  }

  // ---- What a step does to the objects and the reconcilers ----

  function OutsideMoves(w: World, o: Outside): World
    requires OutsideCan(w, o)
  {
    match o
    case CreatePool(p) => w.(pools := w.pools[p := Pool(false, false)])
    case DeletePool(p) =>
      // without a finalizer the object is gone at once
      if w.pools[p].finalizer then w.(pools := w.pools[p := w.pools[p].(deleting := true)])
      else w.(pools := w.pools - {p})
    case DeleteCluster => w.(cluster := w.cluster.(deleting := true, present := w.cluster.finalizer))
    case BindPlacement => w.(placement := true)
    case SetPlacementRef => w.(cluster := w.cluster.(placed := true))
    case _ => w
  }

  function NextClusterPc(w: World, c: ClusterMove): ClusterPc
    requires ClusterCan(w, c)
  {
    match c
    case Start =>
      if !w.cluster.deleting then (if w.placement then CApplying else CIdle)
      else if w.cluster.placed then CListing else CResolving
    case Resolve(readOk) => if readOk && w.placement then CListing else CUnplaced
    case ListPools(rendered) => CFlipping(w.pools != map[], rendered, map[])
    case Flip(i) =>
      CFlipping(w.cpc.pending, w.cpc.rendered, w.cpc.times[i := UpsertTime(w.store, ClusterDoc(i), Remove)])
    case Flipped => CChecking(w.cpc.pending, w.cpc.times, {})
    case CheckOne(i) =>
      if Passes(w.store, ClusterDoc(i), w.cpc.times[i])
      then CChecking(w.cpc.pending, w.cpc.times, w.cpc.ok + {i}) else CIdle
    case Checked => if w.cpc.pending then CIdle else CSweeping(w.cpc.times.Keys)
    case Swept(removed) => CDropping(Some(w.cpc.rendered))
    case Unplace(removed) => CDropping(None)
    case Drop => CIdle
    case Stop => CIdle
    case _ => w.cpc
  }

  function ClusterMoves(w: World, c: ClusterMove): World
    requires ClusterCan(w, c)
  {
    var w1 := w.(cpc := NextClusterPc(w, c));
    match c
    case AddFinalizer => w1.(cluster := w.cluster.(finalizer := true))
    // when the placement cannot be read it is left behind
    case Swept(removed) => w1.(placement := w.placement && !removed)
    case Unplace(removed) => w1.(placement := w.placement && !removed)
    case Drop => w1.(cluster := w.cluster.(finalizer := false, present := false))
    case _ => w1
  }

  function NextPoolPc(w: World, p: nat, m: PoolMove): PoolPc
    requires PoolCan(w, p, m)
  {
    match m
    case PoolAddFinalizer => PIdle
    case PoolStart =>
      if w.pools[p].deleting then PListing
      else if w.cluster.present && w.cluster.placed then PApplying else PIdle
    case PoolApply(content) => PIdle
    case PoolList(readOk) =>
      if readOk && w.cluster.present && w.cluster.placed then PFlipping else PDropping(true)
    case PoolFlip => PChecking(UpsertTime(w.store, PoolDoc(p), Remove))
    case PoolCheck => if Passes(w.store, PoolDoc(p), PcOf(w, p).time) then PSweeping else PIdle
    case PoolSweep(erased) => PDropping(false)
    case PoolDrop => PIdle
    case PoolStop => PIdle
  }

  function PoolMoves(w: World, p: nat, m: PoolMove): World
    requires PoolCan(w, p, m)
  {
    var w1 := w.(ppc := w.ppc[p := NextPoolPc(w, p, m)]);
    match m
    case PoolAddFinalizer => w1.(pools := w.pools[p := w.pools[p].(finalizer := true)])
    case PoolDrop => w1.(pools := w.pools - {p})
    case _ => w1
  }

  function Moves(w: World, op: Op): World
    requires Enabled(w, op)
  {
    match op
    case FromOutside(o) => OutsideMoves(w, o)
    case ByCluster(c) => ClusterMoves(w, c)
    case ByPool(p, m) => PoolMoves(w, p, m)
  }

  function Step(w: World, op: Op): World
    requires Enabled(w, op)
  {
    Moves(w, op).(store := Do(w.store, Effect(op)))
  }

  // ---- What the code relies on ----

  datatype Assumption =
    | PoolSeconds      // distinct desires of a pool document carry distinct seconds
    | ClusterSeconds   // likewise for cluster documents
    | PoolReads        // a deleted pool's lookup of its cluster succeeds
    | PlacementReads   // a deleted cluster's lookup of its placement succeeds
    | NoLatePools      // no pool is created once the cluster is being deleted
    | NoLatePlacement  // no placement reference is set once the cluster is being deleted
    | UnderFinalizer   // the cluster is deleted only under its finalizer
    | RendersAll       // the delete reconcile renders every document ever written

  predicate Holds(a: Assumption, w: World, op: Op) {
    match a
    case PoolSeconds => var e := Effect(op); e.Put? && e.doc.PoolDoc? ==> LaterSecond(w.store, e)
    case ClusterSeconds => var e := Effect(op); e.Put? && e.doc.ClusterDoc? ==> LaterSecond(w.store, e)
    case PoolReads => op.ByPool? && op.m.PoolList? ==> op.m.readOk
    case PlacementReads => op.ByCluster? && op.c.Resolve? ==> op.c.readOk
    case NoLatePools => op.FromOutside? && op.o.CreatePool? ==> !w.cluster.deleting
    case NoLatePlacement => op.FromOutside? && op.o.SetPlacementRef? ==> !w.cluster.deleting
    case UnderFinalizer => op.FromOutside? && op.o.DeleteCluster? ==> w.cluster.finalizer
    case RendersAll =>
      op.ByCluster? && op.c.ListPools? ==>
        forall doc :: doc in w.store.puts && doc.ClusterDoc? ==> doc.i in op.c.rendered
  }

  predicate Assumed(w: World, op: Op, needs: set<Assumption>) {
    forall a :: a in needs ==> Holds(a, w, op)
  }

  /** What the pools' finalizers rest on. */
  const POOL_NEEDS := {PoolSeconds, PoolReads, NoLatePools, NoLatePlacement, UnderFinalizer}

  /** What the confirmation of the rendered set rests on. */
  const RENDERED_NEEDS := {ClusterSeconds}

  /** What the confirmation of all that was ever written for the cluster rests on. */
  const WRITTEN_NEEDS := {ClusterSeconds, PlacementReads, RendersAll}

  const ALL_NEEDS := POOL_NEEDS + WRITTEN_NEEDS

  // ---- The pools' finalizers ----

  ghost predicate PoolOk(w: World, p: nat) {
    var pc, h := PcOf(w, p), PutsOf(w.store, PoolDoc(p));
    && (!pc.PIdle? ==> p in w.pools && w.pools[p].finalizer)
    && (h != [] || pc.PApplying? || pc.PFlipping? ==> w.cluster.placed)
    && (pc.PChecking? ==> h != [] && Last(h) == Desire(Remove, pc.time))
    && (pc.PSweeping? || (pc.PDropping? && !pc.direct) ==> TornDown(w.store, PoolDoc(p)))
    && (pc.PDropping? && pc.direct ==> h == [])
  }

  ghost predicate ClusterOk(w: World) {
    var c := w.cluster;
    && (!c.present ==> c.deleting && (!c.placed || w.pools == map[]))
    && (c.present && c.deleting ==> c.finalizer)
    && (!w.cpc.CIdle? && !w.cpc.CApplying? ==> c.deleting)
    && (w.cpc.CResolving? || w.cpc.CUnplaced? || w.cpc == CDropping(None) ==> !c.placed)
    && ((w.cpc.CFlipping? || w.cpc.CChecking?) && !w.cpc.pending ==> w.pools == map[])
    && (w.cpc.CSweeping? || (w.cpc.CDropping? && w.cpc.confirmed.Some?) ==> w.pools == map[])
  }

  ghost predicate PoolsSafe(w: World) {
    InOrder(w.store) && Stamped(w.store, true) && (forall p :: PoolOk(w, p)) && ClusterOk(w)
  }

  /** A store operation on another document leaves a pool's facts standing. */
  lemma PoolFactsStand(w: World, w': World, o: StoreOp, p: nat)
    requires PoolOk(w, p) && CanDo(w.store, o) && !(o.Put? && o.doc == PoolDoc(p))
    requires w'.store == Do(w.store, o) && PcOf(w', p) == PcOf(w, p)
    requires w.cluster.placed ==> w'.cluster.placed
    requires !PcOf(w, p).PIdle? ==> p in w'.pools && w'.pools[p].finalizer
    ensures PoolOk(w', p)
  {
    DoFrames(w.store, o, PoolDoc(p));
  }

  lemma OutsidePools(w: World, o: Outside)
    requires (forall p :: PoolOk(w, p)) && Enabled(w, FromOutside(o))
    ensures forall p :: PoolOk(Step(w, FromOutside(o)), p)
  {
    var w' := Step(w, FromOutside(o));
    forall p
      ensures PoolOk(w', p)
    {
      assert PoolOk(w, p);
      PoolFactsStand(w, w', OutsideEffect(o), p);
    }
  }

  lemma OutsideCluster(w: World, o: Outside)
    requires ClusterOk(w) && Enabled(w, FromOutside(o))
    requires Holds(NoLatePools, w, FromOutside(o)) && Holds(NoLatePlacement, w, FromOutside(o))
    requires Holds(UnderFinalizer, w, FromOutside(o))
    ensures ClusterOk(Step(w, FromOutside(o)))
  {
  }

  lemma ClusterMovesPools(w: World, c: ClusterMove)
    requires (forall p :: PoolOk(w, p)) && Enabled(w, ByCluster(c))
    ensures forall p :: PoolOk(Step(w, ByCluster(c)), p)
  {
    var w' := Step(w, ByCluster(c));
    forall p
      ensures PoolOk(w', p)
    {
      assert PoolOk(w, p);
      PoolFactsStand(w, w', ClusterEffect(c), p);
    }
  }

  lemma ClusterMovesOk(w: World, c: ClusterMove)
    requires ClusterOk(w) && Enabled(w, ByCluster(c))
    ensures ClusterOk(Step(w, ByCluster(c)))
  {
  }

  lemma PoolMovesPool(w: World, p: nat, m: PoolMove)
    requires InOrder(w.store) && Stamped(w.store, true) && PoolOk(w, p) && ClusterOk(w)
    requires Enabled(w, ByPool(p, m)) && Holds(PoolReads, w, ByPool(p, m))
    ensures PoolOk(Step(w, ByPool(p, m)), p)
  {
    DoFrames(w.store, PoolEffect(p, m), PoolDoc(p));
    if m.PoolFlip? {
      PutIsLatest(w.store, PoolDoc(p), Remove);
    }
    if m.PoolCheck? && Passes(w.store, PoolDoc(p), PcOf(w, p).time) {
      PassingMeansTornDown(w.store, PoolDoc(p), PcOf(w, p).time);
    }
  }

  lemma PoolMovesRest(w: World, p: nat, m: PoolMove)
    requires (forall q :: PoolOk(w, q)) && ClusterOk(w) && Enabled(w, ByPool(p, m))
    ensures var w' := Step(w, ByPool(p, m)); (forall q :: q != p ==> PoolOk(w', q)) && ClusterOk(w')
  {
    var w' := Step(w, ByPool(p, m));
    assert PoolOk(w, p);
    forall q | q != p
      ensures PoolOk(w', q)
    {
      assert PoolOk(w, q);
      PoolFactsStand(w, w', PoolEffect(p, m), q);
    }
  }

  lemma PoolsSafeStep(w: World, op: Op)
    requires PoolsSafe(w) && Enabled(w, op) && Assumed(w, op, POOL_NEEDS)
    ensures PoolsSafe(Step(w, op))
  {
    assert Holds(PoolSeconds, w, op) && Holds(PoolReads, w, op) && Holds(NoLatePools, w, op);
    assert Holds(NoLatePlacement, w, op) && Holds(UnderFinalizer, w, op);
    InOrderStep(w.store, Effect(op));
    StampedStep(w.store, Effect(op), true);
    match op
    case FromOutside(o) =>
      OutsidePools(w, o);
      OutsideCluster(w, o);
    case ByCluster(c) =>
      ClusterMovesPools(w, c);
      ClusterMovesOk(w, c);
    case ByPool(p, m) =>
      assert PoolOk(w, p);
      PoolMovesPool(w, p, m);
      PoolMovesRest(w, p, m);
  }

  // ---- The set rendered in the reconcile ----

  /** The document's latest desire is the removal written at `time`. */
  ghost predicate Flipping(s: Store, doc: Doc, time: nat) {
    PutsOf(s, doc) != [] && Last(PutsOf(s, doc)) == Desire(Remove, time)
  }

  /** What the cluster reconciler knows of the documents it has rendered. */
  ghost predicate DocsOk(s: Store, pc: ClusterPc) {
    match pc
    case CFlipping(_, rendered, times) =>
      forall i :: i in times ==> Flipping(s, ClusterDoc(i), times[i])
    case CChecking(_, times, ok) =>
      && ok <= times.Keys
      && (forall i :: i in times ==> Flipping(s, ClusterDoc(i), times[i]))
      && (forall i :: i in ok ==> TornDown(s, ClusterDoc(i)))
    case CSweeping(rendered) => forall i :: i in rendered ==> TornDown(s, ClusterDoc(i))
    case CDropping(Some(rendered)) => forall i :: i in rendered ==> TornDown(s, ClusterDoc(i))
    case _ => true
  }

  ghost predicate RenderedSafe(w: World) {
    InOrder(w.store) && Stamped(w.store, false) && DocsOk(w.store, w.cpc)
  }

  lemma ClusterPutsStand(s: Store, o: StoreOp, i: nat)
    requires CanDo(s, o) && !(o.Put? && o.doc == ClusterDoc(i))
    ensures PutsOf(Do(s, o), ClusterDoc(i)) == PutsOf(s, ClusterDoc(i))
    ensures TornDown(s, ClusterDoc(i)) ==> TornDown(Do(s, o), ClusterDoc(i))
  {
    DoFrames(s, o, ClusterDoc(i));
  }

  /** A store operation on no cluster document leaves the documents' facts standing. */
  lemma DocFactsStand(s: Store, o: StoreOp, pc: ClusterPc)
    requires CanDo(s, o) && !(o.Put? && o.doc.ClusterDoc?) && DocsOk(s, pc)
    ensures DocsOk(Do(s, o), pc)
  {
    forall i: nat
      ensures PutsOf(Do(s, o), ClusterDoc(i)) == PutsOf(s, ClusterDoc(i))
      ensures TornDown(s, ClusterDoc(i)) ==> TornDown(Do(s, o), ClusterDoc(i))
    {
      ClusterPutsStand(s, o, i);
    }
  }

  lemma FlipDocs(w: World, i: nat)
    requires InOrder(w.store) && DocsOk(w.store, w.cpc) && ClusterCan(w, Flip(i))
    ensures DocsOk(Do(w.store, ClusterEffect(Flip(i))), NextClusterPc(w, Flip(i)))
  {
    var s, s' := w.store, Do(w.store, ClusterEffect(Flip(i)));
    PutIsLatest(s, ClusterDoc(i), Remove);
    forall j: nat | j != i
      ensures PutsOf(s', ClusterDoc(j)) == PutsOf(s, ClusterDoc(j))
    {
      ClusterPutsStand(s, ClusterEffect(Flip(i)), j);
    }
  }

  lemma CheckDocs(w: World, i: nat)
    requires InOrder(w.store) && Stamped(w.store, false) && DocsOk(w.store, w.cpc) && ClusterCan(w, CheckOne(i))
    ensures DocsOk(w.store, NextClusterPc(w, CheckOne(i)))
  {
    if Passes(w.store, ClusterDoc(i), w.cpc.times[i]) {
      PassingMeansTornDown(w.store, ClusterDoc(i), w.cpc.times[i]);
    }
  }

  lemma ClusterMovesDocs(w: World, c: ClusterMove)
    requires InOrder(w.store) && Stamped(w.store, false) && DocsOk(w.store, w.cpc) && Enabled(w, ByCluster(c))
    ensures DocsOk(Do(w.store, ClusterEffect(c)), NextClusterPc(w, c))
  {
    match c
    case ApplyOne(i, content) =>
    case Flip(i) => FlipDocs(w, i);
    case CheckOne(i) => CheckDocs(w, i);
    case _ => DocFactsStand(w.store, ClusterEffect(c), w.cpc);
  }

  lemma DocsStep(w: World, op: Op)
    requires InOrder(w.store) && Stamped(w.store, false) && DocsOk(w.store, w.cpc) && Enabled(w, op)
    ensures DocsOk(Step(w, op).store, Step(w, op).cpc)
  {
    if op.ByCluster? {
      ClusterMovesDocs(w, op.c);
    } else {
      DocFactsStand(w.store, Effect(op), w.cpc);
    }
  }

  lemma RenderedSafeStep(w: World, op: Op)
    requires RenderedSafe(w) && Enabled(w, op) && Assumed(w, op, RENDERED_NEEDS)
    ensures RenderedSafe(Step(w, op))
  {
    assert Holds(ClusterSeconds, w, op);
    InOrderStep(w.store, Effect(op));
    StampedStep(w.store, Effect(op), false);
    DocsStep(w, op);
  }

  // ---- All that was ever written for the cluster ----

  /** Every cluster document ever written is among `rendered`. */
  ghost predicate Within(s: Store, rendered: set<nat>) {
    forall i: nat :: PutsOf(s, ClusterDoc(i)) != [] ==> i in rendered
  }

  /** Every cluster document ever written is torn down. */
  ghost predicate NothingLeft(s: Store) {
    forall i: nat :: PutsOf(s, ClusterDoc(i)) != [] ==> TornDown(s, ClusterDoc(i))
  }

  /** The reconciler deals with all documents ever written, or none is left. */
  ghost predicate WithinOk(s: Store, pc: ClusterPc) {
    match pc
    case CFlipping(_, rendered, times) => Within(s, rendered)
    case CChecking(_, times, ok) => Within(s, times.Keys)
    case CSweeping(rendered) => Within(s, rendered)
    case CUnplaced => NothingLeft(s)
    case CDropping(_) => NothingLeft(s)
    case _ => true
  }

  ghost predicate PlacementOk(w: World) {
    && (w.cpc.CApplying? || w.cpc.CListing? || w.cpc.CFlipping? || w.cpc.CChecking? || w.cpc.CSweeping?
        ==> w.placement || w.cluster.placed)
    && (!w.placement && (!w.cluster.placed || w.cpc.CResolving?) ==> NothingLeft(w.store))
  }

  ghost predicate WrittenSafe(w: World) {
    RenderedSafe(w) && WithinOk(w.store, w.cpc) && PlacementOk(w)
  }

  lemma WrittenFactsStand(s: Store, o: StoreOp, pc: ClusterPc)
    requires CanDo(s, o) && !(o.Put? && o.doc.ClusterDoc?)
    ensures WithinOk(s, pc) ==> WithinOk(Do(s, o), pc)
    ensures NothingLeft(s) ==> NothingLeft(Do(s, o))
  {
    forall i: nat
      ensures PutsOf(Do(s, o), ClusterDoc(i)) == PutsOf(s, ClusterDoc(i))
      ensures TornDown(s, ClusterDoc(i)) ==> TornDown(Do(s, o), ClusterDoc(i))
    {
      ClusterPutsStand(s, o, i);
    }
  }

  lemma ListWithin(w: World, rendered: set<nat>)
    requires ClusterCan(w, ListPools(rendered)) && Holds(RendersAll, w, ByCluster(ListPools(rendered)))
    ensures Within(w.store, rendered)
  {
    forall i: nat | PutsOf(w.store, ClusterDoc(i)) != []
      ensures i in rendered
    {
      assert ClusterDoc(i) in w.store.puts;
    }
  }

  lemma FlipWithin(w: World, i: nat)
    requires WithinOk(w.store, w.cpc) && ClusterCan(w, Flip(i))
    ensures Within(Do(w.store, ClusterEffect(Flip(i))), w.cpc.rendered)
  {
    forall j: nat | j != i
      ensures PutsOf(Do(w.store, ClusterEffect(Flip(i))), ClusterDoc(j)) == PutsOf(w.store, ClusterDoc(j))
    {
      ClusterPutsStand(w.store, ClusterEffect(Flip(i)), j);
    }
  }

  lemma ClusterMovesWithin(w: World, c: ClusterMove)
    requires DocsOk(w.store, w.cpc) && WithinOk(w.store, w.cpc) && PlacementOk(w) && Enabled(w, ByCluster(c))
    requires Holds(PlacementReads, w, ByCluster(c)) && Holds(RendersAll, w, ByCluster(c))
    ensures WithinOk(Do(w.store, ClusterEffect(c)), NextClusterPc(w, c))
  {
    match c
    case ApplyOne(i, content) =>
    case Flip(i) => FlipWithin(w, i);
    case ListPools(rendered) => ListWithin(w, rendered);
    case _ => WrittenFactsStand(w.store, ClusterEffect(c), w.cpc);
  }

  lemma ClusterMovesPlacement(w: World, c: ClusterMove)
    requires DocsOk(w.store, w.cpc) && WithinOk(w.store, w.cpc) && PlacementOk(w) && Enabled(w, ByCluster(c))
    ensures PlacementOk(Step(w, ByCluster(c)))
  {
    if !c.ApplyOne? && !c.Flip? {
      WrittenFactsStand(w.store, ClusterEffect(c), w.cpc);
    }
  }

  /** Steps of others touch neither the cluster's documents nor its reconciler. */
  lemma OthersKeepWritten(w: World, op: Op)
    requires WithinOk(w.store, w.cpc) && PlacementOk(w) && Enabled(w, op) && !op.ByCluster?
    ensures WithinOk(Step(w, op).store, Step(w, op).cpc) && PlacementOk(Step(w, op))
  {
    WrittenFactsStand(w.store, Effect(op), w.cpc);
  }

  lemma WrittenSafeStep(w: World, op: Op)
    requires WrittenSafe(w) && Enabled(w, op) && Assumed(w, op, WRITTEN_NEEDS)
    ensures WrittenSafe(Step(w, op))
  {
    assert Holds(ClusterSeconds, w, op) && Holds(PlacementReads, w, op) && Holds(RendersAll, w, op);
    RenderedSafeStep(w, op);
    if op.ByCluster? {
      ClusterMovesWithin(w, op.c);
      ClusterMovesPlacement(w, op.c);
    } else {
      OthersKeepWritten(w, op);
    }
  }

  // ---- Runs ----

  ghost predicate Legal(w: World, ops: seq<Op>)
    decreases |ops|
  {
    ops == [] || (Enabled(w, ops[0]) && Legal(Step(w, ops[0]), ops[1..]))
  }

  ghost function Run(w: World, ops: seq<Op>): World
    requires Legal(w, ops)
    decreases |ops|
  {
    if ops == [] then w else Run(Step(w, ops[0]), ops[1..])
  }

  /** A run together with the worlds it passes through. */
  datatype Path = Path(worlds: seq<World>, ops: seq<Op>)

  ghost predicate Link(path: Path, i: nat) {
    i < |path.ops| && i + 1 < |path.worlds| ==>
      Enabled(path.worlds[i], path.ops[i]) && path.worlds[i + 1] == Step(path.worlds[i], path.ops[i])
  }

  ghost predicate Traced(w0: World, path: Path, w: World) {
    && |path.worlds| == |path.ops| + 1 && path.worlds[0] == w0 && path.worlds[|path.ops|] == w
    && forall i: nat :: Link(path, i)
  }

  function Extended(path: Path, op: Op, w: World): Path {
    Path(path.worlds + [w], path.ops + [op])
  }

  lemma PathExtends(w0: World, path: Path, w: World, op: Op)
    requires Traced(w0, path, w) && Enabled(w, op)
    ensures Traced(w0, Extended(path, op, Step(w, op)), Step(w, op))
  {
    var path' := Extended(path, op, Step(w, op));
    forall i: nat
      ensures Link(path', i)
    {
      assert Link(path, i);
    }
  }

  /** A path is a run. */
  lemma {:induction false} PathIsRun(w0: World, path: Path, w: World)
    requires Traced(w0, path, w)
    ensures Legal(w0, path.ops) && Run(w0, path.ops) == w
    decreases |path.ops|
  {
    if path.ops == [] {
    } else {
      assert Link(path, 0);
      var rest := Path(path.worlds[1..], path.ops[1..]);
      forall i: nat
        ensures Link(rest, i)
      {
        assert Link(path, i + 1);
      }
      PathIsRun(path.worlds[1], rest, w);
    }
  }

  ghost predicate Meets(path: Path, i: nat, needs: set<Assumption>) {
    i < |path.ops| && i < |path.worlds| ==> Assumed(path.worlds[i], path.ops[i], needs)
  }

  /** `path` leads from `w0` to `w` and meets `needs` all along. */
  ghost predicate Leads(w0: World, path: Path, w: World, needs: set<Assumption>) {
    Traced(w0, path, w) && forall i: nat :: Meets(path, i, needs)
  }

  lemma Go(w0: World, path: Path, w: World, op: Op, needs: set<Assumption>) returns (path': Path, w': World)
    requires Leads(w0, path, w, needs) && Enabled(w, op) && Assumed(w, op, needs)
    ensures Leads(w0, path', w', needs) && w' == Step(w, op)
  {
    PathExtends(w0, path, w, op);
    path', w' := Extended(path, op, Step(w, op)), Step(w, op);
    forall i: nat
      ensures Meets(path', i, needs)
    {
      assert Meets(path, i, needs);
    }
  }

  /** Every step of the run meets `needs`. */
  ghost predicate AssumedRun(w: World, ops: seq<Op>, needs: set<Assumption>)
    requires Legal(w, ops)
    decreases |ops|
  {
    ops == [] || (Assumed(w, ops[0], needs) && AssumedRun(Step(w, ops[0]), ops[1..], needs))
  }

  lemma {:induction false} PathMeets(w0: World, path: Path, w: World, needs: set<Assumption>)
    requires Leads(w0, path, w, needs) && Legal(w0, path.ops)
    ensures AssumedRun(w0, path.ops, needs)
    decreases |path.ops|
  {
    if path.ops == [] {
    } else {
      assert Link(path, 0) && Meets(path, 0, needs);
      var rest := Path(path.worlds[1..], path.ops[1..]);
      forall i: nat
        ensures Link(rest, i) && Meets(rest, i, needs)
      {
        assert Link(path, i + 1) && Meets(path, i + 1, needs);
      }
      PathMeets(path.worlds[1], rest, w, needs);
    }
  }

  // ---- The theorems ----

  lemma InitialSafe()
    ensures PoolsSafe(Initial()) && WrittenSafe(Initial())
  {
  }

  lemma {:induction false} PoolsSafeRun(w: World, ops: seq<Op>)
    requires PoolsSafe(w) && Legal(w, ops) && AssumedRun(w, ops, POOL_NEEDS)
    ensures PoolsSafe(Run(w, ops))
    decreases |ops|
  {
    if ops == [] {
    } else {
      PoolsSafeStep(w, ops[0]);
      PoolsSafeRun(Step(w, ops[0]), ops[1..]);
    }
  }

  lemma {:induction false} RenderedSafeRun(w: World, ops: seq<Op>)
    requires RenderedSafe(w) && Legal(w, ops) && AssumedRun(w, ops, RENDERED_NEEDS)
    ensures RenderedSafe(Run(w, ops))
    decreases |ops|
  {
    if ops == [] {
    } else {
      RenderedSafeStep(w, ops[0]);
      RenderedSafeRun(Step(w, ops[0]), ops[1..]);
    }
  }

  lemma {:induction false} WrittenSafeRun(w: World, ops: seq<Op>)
    requires WrittenSafe(w) && Legal(w, ops) && AssumedRun(w, ops, WRITTEN_NEEDS)
    ensures WrittenSafe(Run(w, ops))
    decreases |ops|
  {
    if ops == [] {
    } else {
      WrittenSafeStep(w, ops[0]);
      WrittenSafeRun(Step(w, ops[0]), ops[1..]);
    }
  }

  /** What a pool's finalizer may be removed on. */
  ghost predicate PoolMayGo(w: World, p: nat) {
    PutsOf(w.store, PoolDoc(p)) == [] || TornDown(w.store, PoolDoc(p))
  }

  /** All that was rendered in this reconcile is torn down. */
  ghost predicate RenderedGone(w: World) {
    match w.cpc
    case CDropping(Some(rendered)) => forall i :: i in rendered ==> TornDown(w.store, ClusterDoc(i))
    case _ => true
  }

  /** Pools: in every run that meets `POOL_NEEDS`, whenever a pool's finalizer is about to be
      removed, the applier has confirmed the removal of its resource, or no desire for it was
      ever written. */
  lemma PoolTeardownSafe(ops: seq<Op>, p: nat)
    requires Legal(Initial(), ops) && AssumedRun(Initial(), ops, POOL_NEEDS)
    ensures var w := Run(Initial(), ops); Enabled(w, ByPool(p, PoolDrop)) ==> PoolMayGo(w, p)
  {
    InitialSafe();
    PoolsSafeRun(Initial(), ops);
    assert PoolOk(Run(Initial(), ops), p);
  }

  /** The rendered set: in every run in which cluster desires carry distinct seconds, whenever
      the cluster's finalizer is about to be removed, the applier has confirmed the removal of
      everything rendered in that reconcile. */
  lemma RenderedTeardownSafe(ops: seq<Op>)
    requires Legal(Initial(), ops) && AssumedRun(Initial(), ops, RENDERED_NEEDS)
    ensures var w := Run(Initial(), ops); Enabled(w, ByCluster(Drop)) ==> RenderedGone(w)
  {
    InitialSafe();
    RenderedSafeRun(Initial(), ops);
  }

  /** Everything: if moreover placements can be looked up and the delete reconcile renders all
      that was ever written, the applier has by then confirmed the removal of every cluster
      resource for which a desire was ever written. */
  lemma WrittenTeardownSafe(ops: seq<Op>)
    requires Legal(Initial(), ops) && AssumedRun(Initial(), ops, WRITTEN_NEEDS)
    ensures var w := Run(Initial(), ops); Enabled(w, ByCluster(Drop)) ==> NothingLeft(w.store)
  {
    InitialSafe();
    WrittenSafeRun(Initial(), ops);
  }
}
