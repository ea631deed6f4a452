/** A teardown can always finish: from every reachable state with the cluster being deleted,
    there is a way to go on, within all the assumptions, that ends with the cluster and its
    pools gone. */
module TeardownProgress {
  import opened Basics
  import opened DesireStore
  import opened Teardown

  lemma Next(w0: World, path: Path, w: World, op: Op) returns (path': Path, w': World)
    requires Leads(w0, path, w, ALL_NEEDS) && Enabled(w, op) && Assumed(w, op, ALL_NEEDS)
    ensures Leads(w0, path', w', ALL_NEEDS) && w' == Step(w, op)
  {
    path', w' := Go(w0, path, w, op, ALL_NEEDS);
  }

  // ---- Time passes, the applier works ----

  /** The clock is past every desire written so far. */
  ghost predicate Later(s: Store) {
    1 <= s.clock && forall doc :: PutsOf(s, doc) != [] ==> Last(PutsOf(s, doc)).time < s.clock
  }

  lemma LetTimePass(w0: World, path: Path, w: World) returns (path': Path, w': World)
    requires Leads(w0, path, w, ALL_NEEDS)
    ensures Leads(w0, path', w', ALL_NEEDS) && Later(w'.store)
    ensures w' == w.(store := w.store.(clock := w'.store.clock))
  {
    var times := set doc | doc in w.store.puts && w.store.puts[doc] != [] :: Last(w.store.puts[doc]).time;
    var now := Above(times);
    path', w' := Next(w0, path, w, FromOutside(Time(now + 1)));
    forall doc | PutsOf(w'.store, doc) != []
      ensures Last(PutsOf(w'.store, doc)).time < w'.store.clock
    {
      assert Last(w.store.puts[doc]).time in times;
    }
  }

  /** The status of every other document is as before. */
  ghost predicate OthersKept(s: Store, s': Store, doc: Doc) {
    forall d :: d != doc ==> ReadStatus(s', d) == ReadStatus(s, d)
  }

  /** The applier carries out the stored desire of `doc`. */
  lemma LetApplierWork(w0: World, path: Path, w: World, doc: Doc) returns (path': Path, w': World)
    requires Leads(w0, path, w, ALL_NEEDS) && doc in w.store.specs
    ensures Leads(w0, path', w', ALL_NEEDS) && w' == w.(store := w'.store)
    ensures Passes(w'.store, doc, w.store.specs[doc].time) && OthersKept(w.store, w'.store, doc)
  {
    path', w' := Next(w0, path, w, FromOutside(Read(doc)));
    path', w' := Next(w0, path', w', FromOutside(Reports(doc, true)));
  }

  /** After an upsert of the removal the stored desire is it, with the time returned. */
  lemma RemovalStored(s: Store, doc: Doc)
    ensures var s' := Do(s, Put(doc, Remove));
            doc in s'.specs && s'.specs[doc] == Desire(Remove, UpsertTime(s, doc, Remove)) && s'.status == s.status
  {
  }

  // ---- Pools ----

  /** `w'` is `w` but for the tables and pool `p`'s reconciler. */
  ghost predicate OnlyPool(w: World, w': World, p: nat, pc: PoolPc) {
    w' == w.(store := w'.store, ppc := w.ppc[p := pc])
  }

  lemma FlipPool(w0: World, path: Path, w: World, p: nat) returns (path': Path, w': World, time: nat)
    requires Leads(w0, path, w, ALL_NEEDS) && PcOf(w, p).PFlipping?
    ensures Leads(w0, path', w', ALL_NEEDS) && OnlyPool(w, w', p, PChecking(time))
    ensures PoolDoc(p) in w'.store.specs && w'.store.specs[PoolDoc(p)].time == time
  {
    path', w' := LetTimePass(w0, path, w);
    RemovalStored(w'.store, PoolDoc(p));
    time := UpsertTime(w'.store, PoolDoc(p), Remove);
    path', w' := Next(w0, path', w', ByPool(p, PoolFlip));
  }

  lemma SweepPool(w0: World, path: Path, w: World, p: nat) returns (path': Path, w': World)
    requires Leads(w0, path, w, ALL_NEEDS) && PcOf(w, p).PFlipping?
    ensures Leads(w0, path', w', ALL_NEEDS) && OnlyPool(w, w', p, PDropping(false))
  {
    var time;
    path', w', time := FlipPool(w0, path, w, p);
    path', w' := LetApplierWork(w0, path', w', PoolDoc(p));
    path', w' := Next(w0, path', w', ByPool(p, PoolCheck));
    path', w' := Next(w0, path', w', ByPool(p, PoolSweep(true)));
  }

  /** The delete reconcile of a pool, from its start to its last request. */
  lemma DrainPool(w0: World, path: Path, w: World, p: nat) returns (path': Path, w': World)
    requires Leads(w0, path, w, ALL_NEEDS) && PcOf(w, p).PIdle?
    requires p in w.pools && w.pools[p].deleting && w.pools[p].finalizer
    ensures Leads(w0, path', w', ALL_NEEDS) && PcOf(w', p).PDropping? && OnlyPool(w, w', p, PcOf(w', p))
  {
    path', w' := Next(w0, path, w, ByPool(p, PoolStart));
    path', w' := Next(w0, path', w', ByPool(p, PoolList(true)));
    if PcOf(w', p).PFlipping? {
      path', w' := SweepPool(w0, path', w', p);
    }
  }

  /** `w'` is `w` without pool `p`, as far as objects and the cluster reconciler go. */
  ghost predicate PoolGone(w: World, w': World, p: nat) {
    w'.pools == w.pools - {p} && w'.cluster == w.cluster && w'.placement == w.placement && w'.cpc == w.cpc
  }

  /** Stop its reconcile and ask for its deletion; without a finalizer that is all. */
  lemma MarkPool(w0: World, path: Path, w: World, p: nat) returns (path': Path, w': World)
    requires Leads(w0, path, w, ALL_NEEDS) && p in w.pools
    ensures Leads(w0, path', w', ALL_NEEDS)
    ensures w' == w.(ppc := w.ppc[p := PIdle],
                     pools := if w.pools[p].finalizer then w.pools[p := Pool(true, true)] else w.pools - {p})
  {
    path', w' := Next(w0, path, w, ByPool(p, PoolStop));
    path', w' := Next(w0, path', w', FromOutside(DeletePool(p)));
  }

  lemma RemovePool(w0: World, path: Path, w: World, p: nat) returns (path': Path, w': World)
    requires Leads(w0, path, w, ALL_NEEDS) && p in w.pools
    ensures Leads(w0, path', w', ALL_NEEDS) && PoolGone(w, w', p)
  {
    path', w' := MarkPool(w0, path, w, p);
    if w.pools[p].finalizer {
      path', w' := DrainPool(w0, path', w', p);
      path', w' := Next(w0, path', w', ByPool(p, PoolDrop));
    }
  }

  lemma {:induction false} RemovePools(w0: World, path: Path, w: World) returns (path': Path, w': World)
    requires Leads(w0, path, w, ALL_NEEDS)
    ensures Leads(w0, path', w', ALL_NEEDS) && w'.pools == map[]
    ensures w'.cluster == w.cluster && w'.placement == w.placement && w'.cpc == w.cpc
    decreases |w.pools|
  {
    if w.pools == map[] {
      path', w' := path, w;
    } else {
      var p :| p in w.pools;
      path', w' := RemovePool(w0, path, w, p);
      assert w'.pools.Keys == w.pools.Keys - {p};
      assert |w'.pools| == |w'.pools.Keys| && |w.pools| == |w.pools.Keys|;
      path', w' := RemovePools(w0, path', w');
    }
  }

  // ---- The cluster ----

  /** `w'` is `w` but for the tables and the cluster reconciler. */
  ghost predicate OnlyCluster(w: World, w': World, pc: ClusterPc) {
    w' == w.(store := w'.store, cpc := pc)
  }

  ghost predicate AllPass(s: Store, times: map<nat, nat>) {
    forall i :: i in times ==> Passes(s, ClusterDoc(i), times[i])
  }

  lemma FlipDoc(w0: World, path: Path, w: World, rendered: set<nat>, times: map<nat, nat>, i: nat)
    returns (path': Path, w': World, time: nat)
    requires Leads(w0, path, w, ALL_NEEDS) && w.cpc == CFlipping(false, rendered, times) && i in rendered
    ensures Leads(w0, path', w', ALL_NEEDS) && OnlyCluster(w, w', CFlipping(false, rendered, times[i := time]))
    ensures ClusterDoc(i) in w'.store.specs && w'.store.specs[ClusterDoc(i)].time == time
    ensures w'.store.status == w.store.status
  {
    path', w' := LetTimePass(w0, path, w);
    RemovalStored(w'.store, ClusterDoc(i));
    time := UpsertTime(w'.store, ClusterDoc(i), Remove);
    path', w' := Next(w0, path', w', ByCluster(Flip(i)));
  }

  /** Upsert the removal of one document and have it carried out. */
  lemma FlipOne(w0: World, path: Path, w: World, rendered: set<nat>, times: map<nat, nat>, i: nat)
    returns (path': Path, w': World, times': map<nat, nat>)
    requires Leads(w0, path, w, ALL_NEEDS) && w.cpc == CFlipping(false, rendered, times)
    requires i in rendered && i !in times && AllPass(w.store, times)
    ensures Leads(w0, path', w', ALL_NEEDS) && OnlyCluster(w, w', CFlipping(false, rendered, times'))
    ensures times'.Keys == times.Keys + {i} && AllPass(w'.store, times')
  {
    var time;
    path', w', time := FlipDoc(w0, path, w, rendered, times, i);
    times' := times[i := time];
    var flipped := w'.store;
    path', w' := LetApplierWork(w0, path', w', ClusterDoc(i));
    forall j | j in times'
      ensures Passes(w'.store, ClusterDoc(j), times'[j])
    {
      if j != i {
        assert ReadStatus(w'.store, ClusterDoc(j)) == ReadStatus(flipped, ClusterDoc(j))
            == ReadStatus(w.store, ClusterDoc(j));
      }
    }
  }

  lemma {:induction false} FlipRest(w0: World, path: Path, w: World, rendered: set<nat>,
                                    times: map<nat, nat>, rest: set<nat>)
    returns (path': Path, w': World, times': map<nat, nat>)
    requires Leads(w0, path, w, ALL_NEEDS) && w.cpc == CFlipping(false, rendered, times)
    requires times.Keys !! rest && times.Keys + rest == rendered && AllPass(w.store, times)
    ensures Leads(w0, path', w', ALL_NEEDS) && OnlyCluster(w, w', CFlipping(false, rendered, times'))
    ensures times'.Keys == rendered && AllPass(w'.store, times')
    decreases |rest|
  {
    if rest == {} {
      path', w', times' := path, w, times;
    } else {
      var i :| i in rest;
      path', w', times' := FlipOne(w0, path, w, rendered, times, i);
      assert times'.Keys + (rest - {i}) == rendered;
      path', w', times' := FlipRest(w0, path', w', rendered, times', rest - {i});
    }
  }

  lemma {:induction false} CheckRest(w0: World, path: Path, w: World, times: map<nat, nat>, ok: set<nat>, rest: set<nat>)
    returns (path': Path, w': World)
    requires Leads(w0, path, w, ALL_NEEDS) && w.cpc == CChecking(false, times, ok)
    requires ok + rest == times.Keys && AllPass(w.store, times)
    ensures Leads(w0, path', w', ALL_NEEDS) && w' == w.(cpc := CChecking(false, times, times.Keys))
    decreases |rest|
  {
    if rest == {} {
      path', w' := path, w;
    } else {
      var i :| i in rest;
      path', w' := Next(w0, path, w, ByCluster(CheckOne(i)));
      assert (ok + {i}) + (rest - {i}) == times.Keys;
      path', w' := CheckRest(w0, path', w', times, ok + {i}, rest - {i});
    }
  }

  lemma CheckAll(w0: World, path: Path, w: World, rendered: set<nat>, times: map<nat, nat>)
    returns (path': Path, w': World)
    requires Leads(w0, path, w, ALL_NEEDS) && w.cpc == CFlipping(false, rendered, times)
    requires times.Keys == rendered && AllPass(w.store, times)
    ensures Leads(w0, path', w', ALL_NEEDS) && w' == w.(cpc := CSweeping(rendered))
  {
    path', w' := Next(w0, path, w, ByCluster(Flipped));
    path', w' := CheckRest(w0, path', w', times, {}, rendered);
    path', w' := Next(w0, path', w', ByCluster(Checked));
  }

  /** With no pool left: list, flip, wait and check. */
  lemma TearDownCluster(w0: World, path: Path, w: World) returns (path': Path, w': World)
    requires Leads(w0, path, w, ALL_NEEDS) && w.cpc.CListing? && w.pools == map[]
    ensures Leads(w0, path', w', ALL_NEEDS) && w'.cpc.CSweeping? && OnlyCluster(w, w', w'.cpc)
  {
    var rendered := set doc | doc in w.store.puts && doc.ClusterDoc? :: doc.i;
    path', w' := ListAll(w0, path, w, rendered);
    var times;
    path', w', times := FlipRest(w0, path', w', rendered, map[], rendered);
    path', w' := CheckAll(w0, path', w', rendered, times);
  }

  lemma ListAll(w0: World, path: Path, w: World, rendered: set<nat>) returns (path': Path, w': World)
    requires Leads(w0, path, w, ALL_NEEDS) && w.cpc.CListing? && w.pools == map[]
    requires forall doc :: doc in w.store.puts && doc.ClusterDoc? ==> doc.i in rendered
    ensures Leads(w0, path', w', ALL_NEEDS) && w' == w.(cpc := CFlipping(false, rendered, map[]))
  {
    path', w' := Next(w0, path, w, ByCluster(ListPools(rendered)));
  }

  /** Find the management cluster, or learn that there is none. */
  lemma FindPlacement(w0: World, path: Path, w: World) returns (path': Path, w': World)
    requires Leads(w0, path, w, ALL_NEEDS) && w.cluster.present && w.cluster.deleting && w.cluster.finalizer
    ensures Leads(w0, path', w', ALL_NEEDS) && (w'.cpc.CListing? || w'.cpc.CUnplaced?) && OnlyCluster(w, w', w'.cpc)
  {
    path', w' := Next(w0, path, w, ByCluster(Stop));
    path', w' := Next(w0, path', w', ByCluster(Start));
    if w'.cpc.CResolving? {
      path', w' := Next(w0, path', w', ByCluster(Resolve(true)));
    }
  }

  lemma RemoveCluster(w0: World, path: Path, w: World) returns (path': Path, w': World)
    requires Leads(w0, path, w, ALL_NEEDS) && w.pools == map[]
    requires w.cluster.present && w.cluster.deleting && w.cluster.finalizer
    ensures Leads(w0, path', w', ALL_NEEDS) && w'.pools == map[] && !w'.cluster.present
  {
    path', w' := FindPlacement(w0, path, w);
    if w'.cpc.CListing? {
      path', w' := TearDownCluster(w0, path', w');
      path', w' := Next(w0, path', w', ByCluster(Swept(true)));
    } else {
      path', w' := Next(w0, path', w', ByCluster(Unplace(true)));
    }
    path', w' := Next(w0, path', w', ByCluster(Drop));
  }

  /** Progress: after every run that meets the pools' assumptions, if the cluster is being
      deleted, some continuation within all the assumptions ends with the cluster and all its
      pools gone — wherever the reconciles were, and whatever the applier has done so far. */
  lemma TeardownCanFinish(ops: seq<Op>) returns (path: Path, w': World)
    requires Legal(Initial(), ops) && AssumedRun(Initial(), ops, POOL_NEEDS)
    requires Run(Initial(), ops).cluster.deleting
    ensures Leads(Run(Initial(), ops), path, w', ALL_NEEDS)
    ensures !w'.cluster.present && w'.pools == map[]
  {
    InitialSafe();
    PoolsSafeRun(Initial(), ops);
    var w := Run(Initial(), ops);
    path, w' := FinishFrom(w);
  }

  lemma FinishFrom(w: World) returns (path: Path, w': World)
    requires ClusterOk(w) && w.cluster.deleting
    ensures Leads(w, path, w', ALL_NEEDS) && !w'.cluster.present && w'.pools == map[]
  {
    path := Path([w], []);
    path, w' := RemovePools(w, path, w);
    if w'.cluster.present {
      path, w' := RemoveCluster(w, path, w');
    }
  }
}
