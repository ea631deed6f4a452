/** The two delete reconciles as code.

    Run without interruption, each is a run of the teardown protocol made of its own
    controller's steps, and it removes its finalizer exactly when its contract says. */
module Reconcilers {
  import opened DesireStatus
  import opened DesireStore
  import opened Teardown

  lemma Then(w0: World, trace: Path, w: World, op: Op) returns (trace': Path, w': World)
    requires Traced(w0, trace, w) && Enabled(w, op)
    ensures Traced(w0, trace', w') && w' == Step(w, op)
  {
    PathExtends(w0, trace, w, op);
    trace', w' := Extended(trace, op, Step(w, op)), Step(w, op);
  }

  /** The removal of `doc`, upserted now, would find itself confirmed. */
  predicate RemovalConfirmed(s: Store, doc: Doc) {
    Passes(s, doc, UpsertTime(s, doc, Remove))
  }

  /** What goes wrong, each time without effect: looking up the cluster or placement,
      listing pools, deleting pools, rendering, upserting, reading and cleaning up desires,
      looking up the placement again, deleting it, and the update that drops the finalizer. */
  datatype Faults = Faults(
    lookup: bool, listing: bool, poolDeletes: set<nat>, rendering: bool,
    upserts: set<Doc>, statuses: set<Doc>, erasures: set<Doc>,
    relookup: bool, removal: bool, finalizing: bool)

  /** The removal of `doc` is upserted and found confirmed. */
  predicate Confirms(s: Store, doc: Doc, faults: Faults) {
    doc !in faults.upserts && doc !in faults.statuses && RemovalConfirmed(s, doc)
  }

  /** One status read. */
  function TryRead(s: Store, doc: Doc, faults: Faults): StatusRead {
    if doc in faults.statuses then ReadError else ReadStatus(s, doc)
  }

  lemma TracePoolFlip(w0: World, trace: Path, w: World, p: nat, confirmed: bool) returns (trace': Path, w': World)
    requires Traced(w0, trace, w) && PcOf(w, p).PFlipping?
    requires confirmed ==> RemovalConfirmed(w.store, PoolDoc(p))
    ensures Traced(w0, trace', w')
    ensures w'.store == Do(w.store, Put(PoolDoc(p), Remove))
    ensures w' == w.(store := w'.store, ppc := w.ppc[p := if confirmed then PSweeping else PIdle])
  {
    trace', w' := Then(w0, trace, w, ByPool(p, PoolFlip));
    trace', w' := Then(w0, trace', w', ByPool(p, if confirmed then PoolCheck else PoolStop));
  }

  lemma TracePoolSweep(w0: World, trace: Path, w: World, p: nat, erased: bool) returns (trace': Path, w': World)
    requires Traced(w0, trace, w) && PcOf(w, p).PSweeping?
    ensures Traced(w0, trace', w')
    ensures w'.store == if erased then Do(w.store, Erase(PoolDoc(p))) else w.store
    ensures w' == w.(store := w'.store, ppc := w.ppc[p := PDropping(false)])
  {
    trace', w' := Then(w0, trace, w, ByPool(p, PoolSweep(erased)));
  }

  function Keys(rendered: seq<nat>): (r: set<nat>)
    ensures forall i :: i in r <==> i in rendered
  {
    set i | i in rendered
  }

  /** Confirm the documents one by one. */
  lemma {:induction false} TraceChecks(w0: World, trace: Path, w: World, pending: bool,
                                       times: map<nat, nat>, rendered: seq<nat>, ok: set<nat>)
    returns (trace': Path, w': World)
    requires Traced(w0, trace, w) && w.cpc == CChecking(pending, times, ok)
    requires forall i :: i in rendered ==> i in times && Passes(w.store, ClusterDoc(i), times[i])
    ensures Traced(w0, trace', w')
    ensures w' == w.(cpc := CChecking(pending, times, ok + Keys(rendered)))
    decreases |rendered|
  {
    trace', w' := trace, w;
    if rendered == [] {
      assert ok + Keys(rendered) == ok;
    } else {
      var i := rendered[0];
      trace', w' := Then(w0, trace, w, ByCluster(CheckOne(i)));
      trace', w' := TraceChecks(w0, trace', w', pending, times, rendered[1..], ok + {i});
      assert ok + {i} + Keys(rendered[1..]) == ok + Keys(rendered);
    }
  }

  /** Find the cluster's placement, or learn that there is none. */
  lemma TraceResolve(w: World, readOk: bool) returns (trace: Path, w': World)
    requires ClusterCan(w, Start) && w.cluster.deleting
    ensures Traced(w, trace, w')
    ensures w' == w.(cpc := if w.cluster.placed || (readOk && w.placement) then CListing else CUnplaced)
  {
    trace, w' := Then(w, Path([w], []), w, ByCluster(Start));
    if !w.cluster.placed {
      trace, w' := Then(w, trace, w', ByCluster(Resolve(readOk)));
    }
  }

  /** The check once all upserts are through; a failed one ends the reconcile. */
  lemma TraceVerdict(w0: World, trace: Path, w: World, pending: bool, times: map<nat, nat>,
                     rendered: seq<nat>, confirmed: bool)
    returns (trace': Path, w': World)
    requires Traced(w0, trace, w) && w.cpc == CFlipping(pending, Keys(rendered), times)
    requires times.Keys == Keys(rendered)
    requires confirmed ==> forall i :: i in rendered ==> Passes(w.store, ClusterDoc(i), times[i])
    ensures Traced(w0, trace', w')
    ensures w' == w.(cpc := if confirmed && !pending then CSweeping(Keys(rendered)) else CIdle)
  {
    trace', w' := Then(w0, trace, w, ByCluster(Flipped));
    if confirmed {
      trace', w' := TraceChecks(w0, trace', w', pending, times, rendered, {});
      assert {} + Keys(rendered) == times.Keys;
      trace', w' := Then(w0, trace', w', ByCluster(Checked));
    } else {
      trace', w' := Then(w0, trace', w', ByCluster(Stop));
    }
  }

  /** The pools after the deletion of `done` was asked for: one without a finalizer is
      gone at once. */
  function Marked(pools: map<nat, Pool>, done: set<nat>): map<nat, Pool> {
    map q | q in pools && (q in done ==> pools[q].deleting || pools[q].finalizer)
      :: if q in done then pools[q].(deleting := true) else pools[q]
  }

  lemma MarkOne(pools: map<nat, Pool>, done: seq<nat>, q: nat)
    requires q in pools && q !in done
    ensures var m := Marked(pools, Keys(done));
            && q in m && m[q] == pools[q]
            && Marked(pools, Keys(done + [q]))
               == if m[q].deleting then m
                  else if m[q].finalizer then m[q := m[q].(deleting := true)]
                  else m - {q}
  {
  }

  lemma TraceDelete(w0: World, trace: Path, w: World, q: nat) returns (trace': Path, w': World)
    requires Traced(w0, trace, w) && q in w.pools
    ensures Traced(w0, trace', w')
    ensures w' == w.(pools := if w.pools[q].finalizer then w.pools[q := w.pools[q].(deleting := true)]
                              else w.pools - {q})
  {
    trace', w' := Then(w0, trace, w, FromOutside(DeletePool(q)));
  }

  lemma TracePoolLookup(w: World, p: nat, readOk: bool) returns (trace: Path, w': World)
    requires PoolCan(w, p, PoolStart) && w.pools[p].deleting
    ensures Traced(w, trace, w')
    ensures w' == w.(ppc := w.ppc[p := if readOk && w.cluster.present && w.cluster.placed
                                       then PFlipping else PDropping(true)])
  {
    trace, w' := Then(w, Path([w], []), w, ByPool(p, PoolStart));
    trace, w' := Then(w, trace, w', ByPool(p, PoolList(readOk)));
  }

  /** The cluster's delete reconcile gets to its last two requests. */
  predicate ClusterReady(w: World, rendered: seq<nat>, faults: Faults) {
    && w.cluster.finalizer
    && (|| !(w.cluster.placed || (!faults.lookup && w.placement))
        || (&& !faults.listing && !faults.rendering && w.pools == map[]
            && forall i :: i in rendered ==> Confirms(w.store, ClusterDoc(i), faults)))
  }

  class Controllers {
    var store: Store
    var cluster: Cluster
    var placement: bool
    var pools: map<nat, Pool>

    constructor (w: World)
      ensures Shows(w)
    {
      store, cluster, placement, pools := w.store, w.cluster, w.placement, w.pools;
    }

    /** The tables and objects are those of `w`. */
    ghost predicate Shows(w: World)
      reads this
    {
      w.store == store && w.cluster == cluster && w.placement == placement && w.pools == pools
    }

    /** The code of an upsert: the time it returns is that of the stored desire. */
    method Upsert(doc: Doc, spec: Spec) returns (time: nat)
      modifies this`store
      ensures store == Do(old(store), Put(doc, spec)) && time == UpsertTime(old(store), doc, spec)
    {
      if doc in store.specs && store.specs[doc].spec == spec {
        return store.specs[doc].time;
      }
      time := store.clock;
      var d := Desire(spec, time);
      store := store.(specs := store.specs[doc := d], puts := store.puts[doc := PutsOf(store, doc) + [d]]);
    }

    /** The part of the reconcile that needs a management cluster; `swept` when nothing
        is left there. */
    method TearDownPool(p: nat, faults: Faults, ghost w0: World, ghost trace: Path, ghost w: World)
      returns (swept: bool, ghost trace': Path, ghost w': World)
      requires Traced(w0, trace, w) && Shows(w) && PcOf(w, p).PFlipping?
      modifies this`store
      ensures Traced(w0, trace', w')
      ensures swept <==> !faults.rendering && Confirms(old(store), PoolDoc(p), faults)
      ensures w' == w.(store := store, ppc := w.ppc[p := if swept then PDropping(false) else PIdle])
    {
      var doc := PoolDoc(p);
      if faults.rendering || doc in faults.upserts {
        trace', w' := Then(w0, trace, w, ByPool(p, PoolStop));
        return false, trace', w';
      }
      var time := Upsert(doc, Remove);
      var outcome, _, _ := Check([Entry("", time)], [TryRead(store, doc, faults)]);
      swept := outcome.AllSynced?;
      trace', w' := TracePoolFlip(w0, trace, w, p, swept);
      if swept {
        trace', w' := TracePoolSweep(w0, trace', w', p, doc !in faults.erasures);
        if doc !in faults.erasures {
          store := store.(specs := store.specs - {doc});
        }
      }
    }

    /** Drops the pool's finalizer, and with it the pool, exactly when no placed cluster is
        found or the removal of its resource is confirmed, and the update goes through. */
    method ReconcilePoolDelete(p: nat, faults: Faults, ghost w: World)
      returns (dropped: bool, ghost trace: Path, ghost w': World)
      requires Shows(w) && PcOf(w, p).PIdle? && p in pools && pools[p].deleting
      modifies this
      ensures Traced(w, trace, w') && Shows(w') && PcOf(w', p).PIdle?
      ensures dropped <==>
                && old(pools[p].finalizer) && !faults.finalizing
                && (|| faults.lookup || !cluster.present || !cluster.placed
                    || (!faults.rendering && Confirms(old(store), PoolDoc(p), faults)))
      ensures pools == (if dropped then old(pools) - {p} else old(pools))
      ensures cluster == old(cluster) && placement == old(placement)
    {
      trace, w', dropped := Path([w], []), w, false;
      if !pools[p].finalizer {
        return;
      }
      trace, w' := TracePoolLookup(w, p, !faults.lookup);
      if !faults.lookup && cluster.present && cluster.placed {
        var swept;
        swept, trace, w' := TearDownPool(p, faults, w, trace, w');
        if !swept {
          return;
        }
      }
      if faults.finalizing {
        trace, w' := Then(w, trace, w', ByPool(p, PoolStop));
        return;
      }
      trace, w' := Then(w, trace, w', ByPool(p, PoolDrop));
      pools := pools - {p};
      dropped := true;
    }

    /** Ask for every pool's deletion, up to the first that fails. */
    method DeletePools(names: seq<nat>, faults: Faults, ghost w0: World, ghost trace: Path, ghost w: World)
      returns (done: nat, ghost trace': Path, ghost w': World)
      requires Traced(w0, trace, w) && Shows(w)
      requires forall i :: 0 <= i < |names| ==> names[i] in pools
      requires forall i, j :: 0 <= i < j < |names| ==> names[i] != names[j]
      modifies this`pools
      ensures Traced(w0, trace', w') && Shows(w') && w' == w.(pools := pools)
      ensures done <= |names| && pools == Marked(old(pools), Keys(names[..done]))
      ensures done < |names| ==> names[done] in faults.poolDeletes && !old(pools)[names[done]].deleting
      ensures forall i :: 0 <= i < done ==> old(pools)[names[i]].deleting || names[i] !in faults.poolDeletes
    {
      trace', w' := trace, w;
      for n := 0 to |names|
        invariant Traced(w0, trace', w') && Shows(w') && w' == w.(pools := pools)
        invariant pools == Marked(old(pools), Keys(names[..n]))
        invariant forall i :: 0 <= i < n ==> old(pools)[names[i]].deleting || names[i] !in faults.poolDeletes
      {
        var q := names[n];
        MarkOne(old(pools), names[..n], q);
        assert names[..n + 1] == names[..n] + [q];
        if !pools[q].deleting {
          if q in faults.poolDeletes {
            return n, trace', w';
          }
          trace', w' := TraceDelete(w0, trace', w', q);
          if pools[q].finalizer {
            pools := pools[q := pools[q].(deleting := true)];
          } else {
            pools := pools - {q};
          }
        }
      }
      done := |names|;
    }

    /** Turn every rendered document's desire into a removal. */
    method FlipAll(rendered: seq<nat>, faults: Faults, ghost pending: bool,
                   ghost w0: World, ghost trace: Path, ghost w: World)
      returns (times: map<nat, nat>, ghost trace': Path, ghost w': World)
      requires Traced(w0, trace, w) && Shows(w) && w.cpc == CFlipping(pending, Keys(rendered), map[])
      modifies this`store
      ensures Traced(w0, trace', w') && Shows(w')
      ensures w' == w.(store := store, cpc := CFlipping(pending, Keys(rendered), times))
      ensures store.status == old(store.status)
      ensures forall i :: i in times <==> i in rendered && ClusterDoc(i) !in faults.upserts
      ensures forall i :: i in times ==> times[i] == UpsertTime(old(store), ClusterDoc(i), Remove)
    {
      trace', w', times := trace, w, map[];
      for n := 0 to |rendered|
        invariant Traced(w0, trace', w') && Shows(w')
        invariant w' == w.(store := store, cpc := CFlipping(pending, Keys(rendered), times))
        invariant store.status == old(store.status) && store.clock == old(store.clock)
        invariant forall i :: i in times <==> i in rendered[..n] && ClusterDoc(i) !in faults.upserts
        invariant forall i: nat :: UpsertTime(store, ClusterDoc(i), Remove) == UpsertTime(old(store), ClusterDoc(i), Remove)
        invariant forall i :: i in times ==> times[i] == UpsertTime(old(store), ClusterDoc(i), Remove)
      {
        var i := rendered[n];
        assert rendered[..n + 1] == rendered[..n] + [i];
        if ClusterDoc(i) !in faults.upserts {
          trace', w' := Then(w0, trace', w', ByCluster(Flip(i)));
          var time := Upsert(ClusterDoc(i), Remove);
          times := times[i := time];
        }
      }
      assert rendered[..|rendered|] == rendered;
    }

    /** Remove the desires; failures are only logged. */
    method SweepAll(rendered: seq<nat>, faults: Faults, ghost w0: World, ghost trace: Path, ghost w: World)
      returns (ghost trace': Path, ghost w': World)
      requires Traced(w0, trace, w) && Shows(w) && w.cpc == CSweeping(Keys(rendered))
      modifies this`store
      ensures Traced(w0, trace', w') && Shows(w') && w' == w.(store := store)
      ensures forall d :: d in store.specs <==>
                d in old(store).specs && !(d.ClusterDoc? && d.i in rendered && d !in faults.erasures)
    {
      trace', w' := trace, w;
      for n := 0 to |rendered|
        invariant Traced(w0, trace', w') && Shows(w') && w' == w.(store := store)
        invariant forall d :: d in store.specs <==>
                    d in old(store).specs && !(d.ClusterDoc? && d.i in rendered[..n] && d !in faults.erasures)
      {
        var i := rendered[n];
        assert rendered[..n + 1] == rendered[..n] + [i];
        if ClusterDoc(i) !in faults.erasures {
          trace', w' := Then(w0, trace', w', ByCluster(SweepOne(i)));
          store := store.(specs := store.specs - {ClusterDoc(i)});
        }
      }
      assert rendered[..|rendered|] == rendered;
    }

    /** Have all removals been confirmed? */
    method AllConfirmed(rendered: seq<nat>, times: map<nat, nat>, faults: Faults) returns (yes: bool)
      requires forall i :: i in rendered ==> i in times
      ensures yes <==> forall i :: i in rendered ==>
                         ClusterDoc(i) !in faults.statuses && Passes(store, ClusterDoc(i), times[i])
    {
      var entries := seq(|rendered|, n requires 0 <= n < |rendered| => Entry("", times[rendered[n]]));
      var s := store;
      var results := seq(|rendered|, n requires 0 <= n < |rendered| => TryRead(s, ClusterDoc(rendered[n]), faults));
      var outcome, _, _ := Check(entries, results);
      yes := outcome.AllSynced?;
      assert forall n :: 0 <= n < |rendered| ==>
               (Confirmed(entries[n], results[n]) <==>
                  ClusterDoc(rendered[n]) !in faults.statuses && Passes(store, ClusterDoc(rendered[n]), times[rendered[n]]));
    }

    /** Delete the placement, if it can be read, and drop the finalizer; a failed request
        ends the reconcile. */
    method CleanupAndRemoveFinalizer(faults: Faults, ghost w0: World, ghost trace: Path, ghost w: World)
      returns (dropped: bool, ghost trace': Path, ghost w': World)
      requires Traced(w0, trace, w) && Shows(w) && (w.cpc.CSweeping? || w.cpc.CUnplaced?)
      modifies this`placement, this`cluster
      ensures Traced(w0, trace', w') && Shows(w') && w'.cpc.CIdle?
      ensures dropped <==> !faults.finalizing && !(!faults.relookup && old(placement) && faults.removal)
      ensures placement == (old(placement) && (faults.relookup || faults.removal))
      ensures cluster == if dropped then old(cluster).(finalizer := false, present := false) else old(cluster)
    {
      dropped := false;
      if !faults.relookup && placement && faults.removal {
        trace', w' := Then(w0, trace, w, ByCluster(Stop));
        return;
      }
      trace', w' := Then(w0, trace, w, ByCluster(if w.cpc.CSweeping? then Swept(!faults.relookup)
                                                 else Unplace(!faults.relookup)));
      if !faults.relookup && placement {
        placement := false;
      }
      if faults.finalizing {
        trace', w' := Then(w0, trace', w', ByCluster(Stop));
        return;
      }
      trace', w' := Then(w0, trace', w', ByCluster(Drop));
      cluster := cluster.(finalizer := false, present := false);
      dropped := true;
    }

    /** Upsert all removals and look for their confirmations. */
    method FlipAndCheck(rendered: seq<nat>, faults: Faults, pending: bool,
                        ghost w0: World, ghost trace: Path, ghost w: World)
      returns (confirmed: bool, ghost trace': Path, ghost w': World)
      requires Traced(w0, trace, w) && Shows(w) && w.cpc == CFlipping(pending, Keys(rendered), map[])
      modifies this`store
      ensures Traced(w0, trace', w') && Shows(w')
      ensures w'.cpc == if confirmed && !pending then CSweeping(Keys(rendered)) else CIdle
      ensures confirmed <==> forall i :: i in rendered ==> Confirms(old(store), ClusterDoc(i), faults)
    {
      var times;
      times, trace', w' := FlipAll(rendered, faults, pending, w0, trace, w);
      if exists i :: i in rendered && i !in times {
        trace', w' := Then(w0, trace', w', ByCluster(Stop));
        return false, trace', w';
      }
      confirmed := AllConfirmed(rendered, times, faults);
      trace', w' := TraceVerdict(w0, trace', w', pending, times, rendered, confirmed);
    }

    /** List the pools, ask for their deletion and render; `ready` unless a request fails. */
    method ListAndDelete(rendered: seq<nat>, names: seq<nat>, faults: Faults,
                         ghost w0: World, ghost trace: Path, ghost w: World)
      returns (ready: bool, ghost trace': Path, ghost w': World)
      requires Traced(w0, trace, w) && Shows(w) && w.cpc.CListing?
      requires forall q :: q in pools <==> q in names
      requires forall i, j :: 0 <= i < j < |names| ==> names[i] != names[j]
      modifies this`pools
      ensures Traced(w0, trace', w') && Shows(w')
      ensures w'.cpc == if ready then CFlipping(old(pools) != map[], Keys(rendered), map[]) else CIdle
      ensures ready ==> !faults.listing && !faults.rendering
      ensures !faults.listing && !faults.rendering && old(pools) == map[] ==> ready
      ensures !faults.listing && faults.poolDeletes == {} ==> pools == Marked(old(pools), old(pools).Keys)
    {
      if faults.listing {
        trace', w' := Then(w0, trace, w, ByCluster(Stop));
        return false, trace', w';
      }
      assert Keys(names) == pools.Keys && names[..|names|] == names;
      trace', w' := Then(w0, trace, w, ByCluster(ListPools(Keys(rendered))));
      var done;
      done, trace', w' := DeletePools(names, faults, w0, trace', w');
      ready := done == |names| && !faults.rendering;
      if !ready {
        trace', w' := Then(w0, trace', w', ByCluster(Stop));
      }
    }

    /** The part of the reconcile that needs a management cluster; `swept` when nothing
        is left there. */
    method TearDown(rendered: seq<nat>, names: seq<nat>, faults: Faults,
                    ghost w0: World, ghost trace: Path, ghost w: World)
      returns (swept: bool, ghost trace': Path, ghost w': World)
      requires Traced(w0, trace, w) && Shows(w) && w.cpc.CListing?
      requires forall q :: q in pools <==> q in names
      requires forall i, j :: 0 <= i < j < |names| ==> names[i] != names[j]
      modifies this`pools, this`store
      ensures Traced(w0, trace', w') && Shows(w')
      ensures w'.cpc == if swept then CSweeping(Keys(rendered)) else CIdle
      ensures swept <==>
                && !faults.listing && !faults.rendering && old(pools) == map[]
                && forall i :: i in rendered ==> Confirms(old(store), ClusterDoc(i), faults)
      ensures !faults.listing && faults.poolDeletes == {} ==> pools == Marked(old(pools), old(pools).Keys)
    {
      var pending := |names| > 0;
      assert pending <==> pools != map[] by {
        if pending {
          assert names[0] in pools;
        }
      }
      var ready;
      ready, trace', w' := ListAndDelete(rendered, names, faults, w0, trace, w);
      swept := false;
      if ready {
        swept, trace', w' := FlipAndCheck(rendered, faults, pending, w0, trace', w');
        swept := swept && !pending;
        if swept {
          trace', w' := SweepAll(rendered, faults, w0, trace', w');
        }
      }
    }

    /** Drops the cluster's finalizer exactly when it has no placement, or no pool is left
        and every rendered removal is confirmed, and then the placement is deleted (if it can
        be read) and the update goes through. */
    method ReconcileClusterDelete(rendered: seq<nat>, names: seq<nat>, faults: Faults, ghost w: World)
      returns (dropped: bool, ghost trace: Path, ghost w': World)
      requires Shows(w) && w.cpc.CIdle? && cluster.present && cluster.deleting
      requires forall q :: q in pools <==> q in names
      requires forall i, j :: 0 <= i < j < |names| ==> names[i] != names[j]
      modifies this
      ensures Traced(w, trace, w') && Shows(w') && w'.cpc.CIdle?
      ensures dropped <==>
                && ClusterReady(w, rendered, faults) && !faults.finalizing
                && !(!faults.relookup && w.placement && faults.removal)
      ensures cluster == if dropped then w.cluster.(finalizer := false, present := false) else w.cluster
      ensures placement == (w.placement && (!ClusterReady(w, rendered, faults) || faults.relookup || faults.removal))
      ensures w.cluster.finalizer && w.cluster.placed && !faults.listing && faults.poolDeletes == {} ==>
                pools == Marked(w.pools, w.pools.Keys)
    {
      trace, w', dropped := Path([w], []), w, false;
      if !cluster.finalizer {
        return;
      }
      trace, w' := TraceResolve(w, !faults.lookup);
      if cluster.placed || (!faults.lookup && placement) {
        var swept;
        swept, trace, w' := TearDown(rendered, names, faults, w, trace, w');
        if !swept {
          return;
        }
      }
      dropped, trace, w' := CleanupAndRemoveFinalizer(faults, w, trace, w');
    }
  }
}
