/** The desire table, the status table and the applier, as the controllers see them. */
module DesireStore {
  import opened Basics
  import opened DesireStatus

  /** The documents of the cluster's rendered resources and of each pool's resource. */
  datatype Doc = ClusterDoc(i: nat) | PoolDoc(p: nat)

  datatype Spec = Apply(content: string) | Remove

  /** `time` is the update time in whole seconds. */
  datatype Desire = Desire(spec: Spec, time: nat)

  datatype Report = Report(observed: nat, ok: bool)

  /** `inbox` is what the applier has read and not yet reported on.  `puts` (every desire
      ever written, per document) and `done` (desires reported successful) only record
      the past. */
  datatype Store = Store(
    clock: nat,
    specs: map<Doc, Desire>,
    status: map<Doc, Report>,
    inbox: map<Doc, Desire>,
    puts: map<Doc, seq<Desire>>,
    done: set<(Doc, Desire)>)

  datatype StoreOp =
    | Nothing
    | Tick(now: nat)
    | Put(doc: Doc, spec: Spec)
    | Erase(doc: Doc)
    | ApplierReads(doc: Doc)
    | ApplierReports(doc: Doc, ok: bool)

  function PutsOf(s: Store, doc: Doc): seq<Desire> {
    if doc in s.puts then s.puts[doc] else []
  }

  function Last(h: seq<Desire>): Desire
    requires h != []
  {
    h[|h| - 1]
  }

  /** The upsert would find the spec unchanged. */
  predicate Same(s: Store, doc: Doc, spec: Spec) { doc in s.specs && s.specs[doc].spec == spec }

  /** The update time an upsert returns: an unchanged spec keeps its time. */
  function UpsertTime(s: Store, doc: Doc, spec: Spec): nat {
    if Same(s, doc, spec) then s.specs[doc].time else s.clock
  }

  predicate CanDo(s: Store, o: StoreOp) {
    match o
    case Tick(now) => now >= 1
    case ApplierReads(doc) => doc in s.specs
    case ApplierReports(doc, ok) => doc in s.inbox
    case _ => true
  }

  function Do(s: Store, o: StoreOp): Store
    requires CanDo(s, o)
  {
    match o
    case Nothing => s
    case Tick(now) => s.(clock := now)
    case Put(doc, spec) =>
      if Same(s, doc, spec) then s
      else
        var d := Desire(spec, s.clock);
        s.(specs := s.specs[doc := d], puts := s.puts[doc := PutsOf(s, doc) + [d]])
    case Erase(doc) => s.(specs := s.specs - {doc})
    case ApplierReads(doc) => s.(inbox := s.inbox[doc := s.specs[doc]])
    case ApplierReports(doc, ok) =>
      var d := s.inbox[doc];
      s.(inbox := s.inbox - {doc}, status := s.status[doc := Report(d.time, ok)],
         done := if ok then s.done + {(doc, d)} else s.done)
  }

  function ReadStatus(s: Store, doc: Doc): StatusRead {
    if doc in s.status then Found(s.status[doc].observed, Some(s.status[doc].ok)) else NotFound
  }

  /** The status check for one document. */
  predicate Passes(s: Store, doc: Doc, time: nat) {
    Confirmed(Entry("", time), ReadStatus(s, doc))
  }

  /** A changed spec is stamped with a later second than any earlier one of its document. */
  predicate LaterSecond(s: Store, o: StoreOp) {
    o.Put? && !Same(s, o.doc, o.spec) && PutsOf(s, o.doc) != [] ==> Last(PutsOf(s, o.doc)).time < s.clock
  }

  /** The applier has carried out the document's latest desire, and that was its removal. */
  ghost predicate TornDown(s: Store, doc: Doc) {
    PutsOf(s, doc) != [] && Last(PutsOf(s, doc)).spec == Remove && (doc, Last(PutsOf(s, doc))) in s.done
  }

  // ---- Invariants ----

  ghost predicate Increasing(h: seq<Desire>) {
    && (forall i, j :: 0 <= i < j < |h| ==> h[i].time < h[j].time)
    && (forall i :: 0 <= i < |h| ==> 1 <= h[i].time)
  }

  /** The desires of every pool document, or of every cluster document, carry increasing times. */
  ghost predicate Stamped(s: Store, ofPools: bool) {
    forall doc: Doc :: doc.PoolDoc? == ofPools ==> Increasing(PutsOf(s, doc))
  }

  /** `r` reports on a desire of the document, truthfully when successful. */
  ghost predicate ReportsOn(s: Store, doc: Doc, r: Report) {
    exists d :: d in PutsOf(s, doc) && d.time == r.observed && (r.ok ==> (doc, d) in s.done)
  }

  ghost predicate Reported(s: Store) {
    && (forall doc :: doc in s.inbox ==> s.inbox[doc] in PutsOf(s, doc))
    && (forall doc :: doc in s.status ==> ReportsOn(s, doc, s.status[doc]))
  }

  /** What holds whatever the clock does: a stored desire is the latest written, and the
      applier reports on desires that were written. */
  ghost predicate InOrder(s: Store) {
    && 1 <= s.clock && Reported(s)
    && (forall doc :: doc in s.specs ==> PutsOf(s, doc) != [] && s.specs[doc] == Last(PutsOf(s, doc)))
  }

  /** What an operation does to a document's written desires. */
  lemma DoFrames(s: Store, o: StoreOp, doc: Doc)
    requires CanDo(s, o)
    ensures PutsOf(s, doc) <= PutsOf(Do(s, o), doc) && s.done <= Do(s, o).done
    ensures !(o.Put? && o.doc == doc) ==> PutsOf(Do(s, o), doc) == PutsOf(s, doc)
    ensures !(o.Put? && o.doc == doc) && TornDown(s, doc) ==> TornDown(Do(s, o), doc)
  {
  }

  lemma PutIsLatest(s: Store, doc: Doc, spec: Spec)
    requires InOrder(s)
    ensures var s' := Do(s, Put(doc, spec));
            PutsOf(s', doc) != [] && Last(PutsOf(s', doc)) == Desire(spec, UpsertTime(s, doc, spec))
  {
  }

  lemma IncreasingExtends(h: seq<Desire>, d: Desire)
    requires Increasing(h) && 1 <= d.time && (h != [] ==> Last(h).time < d.time)
    ensures Increasing(h + [d])
  {
  }

  lemma StampedStep(s: Store, o: StoreOp, ofPools: bool)
    requires 1 <= s.clock && Stamped(s, ofPools) && CanDo(s, o)
    requires o.Put? && o.doc.PoolDoc? == ofPools ==> LaterSecond(s, o)
    ensures Stamped(Do(s, o), ofPools)
  {
    var s' := Do(s, o);
    forall doc: Doc | doc.PoolDoc? == ofPools
      ensures Increasing(PutsOf(s', doc))
    {
      if o.Put? && o.doc == doc && !Same(s, doc, o.spec) {
        IncreasingExtends(PutsOf(s, doc), Desire(o.spec, s.clock));
      } else {
        assert PutsOf(s', doc) == PutsOf(s, doc);
      }
    }
  }

  lemma StillReports(s: Store, s': Store, doc: Doc, r: Report)
    requires ReportsOn(s, doc, r) && PutsOf(s, doc) <= PutsOf(s', doc) && s.done <= s'.done
    ensures ReportsOn(s', doc, r)
  {
    var d :| d in PutsOf(s, doc) && d.time == r.observed && (r.ok ==> (doc, d) in s.done);
    assert d in PutsOf(s', doc);
  }

  lemma StatusStep(s: Store, o: StoreOp, doc: Doc)
    requires InOrder(s) && CanDo(s, o) && doc in Do(s, o).status
    ensures ReportsOn(Do(s, o), doc, Do(s, o).status[doc])
  {
    var s' := Do(s, o);
    DoFrames(s, o, doc);
    if o.ApplierReports? && o.doc == doc {
      assert s.inbox[doc] in PutsOf(s', doc);
    } else {
      StillReports(s, s', doc, s.status[doc]);
    }
  }

  lemma InOrderStep(s: Store, o: StoreOp)
    requires InOrder(s) && CanDo(s, o)
    ensures InOrder(Do(s, o))
  {
    var s' := Do(s, o);
    forall doc | doc in s'.status
      ensures ReportsOn(s', doc, s'.status[doc])
    {
      StatusStep(s, o, doc);
    }
    forall doc | doc in s'.inbox
      ensures s'.inbox[doc] in PutsOf(s', doc)
    {
      DoFrames(s, o, doc);
    }
    forall doc | doc in s'.specs
      ensures PutsOf(s', doc) != [] && s'.specs[doc] == Last(PutsOf(s', doc))
    {
      DoFrames(s, o, doc);
    }
  }

  /** A status that passes the check was reported for the latest desire. */
  lemma PassingMeansTornDown(s: Store, doc: Doc, time: nat)
    requires InOrder(s) && Increasing(PutsOf(s, doc))
    requires PutsOf(s, doc) != [] && Last(PutsOf(s, doc)) == Desire(Remove, time)
    requires Passes(s, doc, time)
    ensures TornDown(s, doc)
  {
    var h := PutsOf(s, doc);
    var d :| d in h && d.time == s.status[doc].observed && (s.status[doc].ok ==> (doc, d) in s.done);
    var i :| 0 <= i < |h| && h[i] == d;
    assert Increasing(h) && h[|h| - 1].time == time;
    assert i == |h| - 1;
  }

  /** The staleness check singles out the latest of all desires a document ever had
      exactly when every other one carries an earlier second. */
  lemma CheckSinglesOutIff(h: seq<Desire>)
    requires h != [] && Last(h).time != 0
    ensures (forall d :: d in h && Confirmed(Entry("", Last(h).time), Found(d.time, Some(true))) ==> d == Last(h))
            <==> (forall d :: d in h && d != Last(h) ==> d.time < Last(h).time)
  {
    forall d | d in h
      ensures Confirmed(Entry("", Last(h).time), Found(d.time, Some(true))) <==> d.time >= Last(h).time
    {
    }
  }
}
