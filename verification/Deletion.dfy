/** The client's calls on top of the writer, and why a deletion is never undone.

    `Update` reads the row in one transaction and writes it in another, carrying over
    the deletion timestamp it read.  Other writers may commit in between. */
module Deletion {
  import opened Basics
  import opened Tombstone
  import opened Rows
  import opened Database
  import opened History

  /** What a client call saw before it wrote, as positions in the key's history:
      `observed` is the version the caller's object carries, `read` the row the call
      itself read. */
  datatype Call =
    | CreateCall(spec: string, status: string, metadata: Metadata)
    | UpdateCall(observed: nat, read: nat, spec: string, metadata: Metadata)
    | DeleteCall(observed: nat, spec: string, status: string, metadata: Metadata, now: int)
    | DeleteLatestCall(read: nat, now: int)
    | StatusCall(observed: nat, status: string)

  predicate SawHistory(call: Call, h: seq<Row>) {
    && (call.UpdateCall? ==> call.observed <= call.read < |h|)
    && (call.DeleteCall? || call.StatusCall? ==> call.observed < |h|)
    && (call.DeleteLatestCall? ==> call.read < |h|)
    // a key the client's read does not find is reported as missing, not written
    && (call.UpdateCall? || call.DeleteLatestCall? ==>
          ReadCurrentFilter(h[call.read].deletion, h[call.read].metadata).True3?)
  }

  /** The write request a call issues. */
  function RequestOf(k: Key, call: Call, h: seq<Row>): Request
    requires SawHistory(call, h)
  {
    match call
    case CreateCall(spec, status, metadata) => Write(k, spec, Some(status), metadata, None, 0, false)
    case UpdateCall(observed, read, spec, metadata) =>
      WriteObject(k, spec, metadata, h[read].deletion, h[observed].version, false)
    case DeleteCall(observed, spec, status, metadata, now) =>
      Write(k, spec, Some(status), metadata, Some(now), h[observed].version, false)
    case DeleteLatestCall(read, now) =>
      var cur := h[read];
      Write(k, cur.spec, Some(cur.status), cur.metadata,
            if cur.deletion.Some? then cur.deletion else Some(now), cur.version, false)
    case StatusCall(observed, status) => WriteStatus(k, status, h[observed].version, false)
  }

  /** The upsert was issued by `call`, at some later time than the call's reads. */
  ghost predicate IssuedBy(db: Db, op: DbOp, call: Call) {
    op.Upserting? ==>
      && SawHistory(call, HistoryOf(db, op.req.key))
      && op.req == RequestOf(op.req.key, call, HistoryOf(db, op.req.key))
  }

  /** The version an update carries is of the uid it writes to. */
  ghost predicate ObservedCurrent(db: Db, op: DbOp, call: Call) {
    op.Upserting? && call.UpdateCall? ==>
      var h := HistoryOf(db, op.req.key);
      call.observed < |h| && op.req.key in db.rows ==> h[call.observed].uid == db.rows[op.req.key].uid
  }

  ghost predicate KeepsDeletion(before: Row, after: Row) {
    before.uid == after.uid && before.deletion.Some? ==> after.deletion.Some?
  }

  ghost predicate OneWay(h: seq<Row>) {
    forall n :: 0 < n < |h| ==> KeepsDeletion(h[n - 1], h[n])
  }

  ghost predicate DeletionsStand(db: Db) {
    && (forall k :: OneWay(HistoryOf(db, k)))
    && (forall x :: x in db.open && db.open[x].Wrote? && HistoryOf(db, db.open[x].key) != [] ==>
          var h := HistoryOf(db, db.open[x].key);
          KeepsDeletion(h[|h| - 1], db.open[x].row))
  }

  /** An update whose version is of the current uid and passes the check read the very row
      it replaces. */
  lemma UpdateReadWhatItReplaces(h: seq<Row>, observed: nat, read: nat)
    requires Chained(h) && observed <= read < |h|
    requires h[observed].uid == h[|h| - 1].uid && h[|h| - 1].version == h[observed].version
    ensures read == |h| - 1
  {
    SameUidContiguous(h, observed, |h| - 1);
  }

  /** An update that read an undeleted row and replaces a deleted one. */
  predicate ReadsTooEarly(h: seq<Row>, call: Call)
    requires h != []
  {
    call.UpdateCall? && call.read < |h| && h[|h| - 1].deletion.Some? && h[call.read].deletion.None?
  }

  /** Of all the writes that pass the version check, exactly the updates that read too early
      clear a deletion: a create takes a fresh uid, a delete sets the timestamp, a status
      write keeps it. */
  lemma PassingCallClearsIff(h: seq<Row>, current: Option<Row>, k: Key, call: Call, xid: nat, uid: nat, now: int)
    requires h != [] && SawHistory(call, h) && h[|h| - 1].uid != uid
    requires current.Some? ==> current.value == h[|h| - 1]
    ensures var v := Upsert(current, RequestOf(k, call, h), xid, uid, now);
            v.Put? ==> (KeepsDeletion(h[|h| - 1], v.row) <==> !ReadsTooEarly(h, call))
  {
  }

  /** Deleting the latest version of an object that is already being deleted changes nothing:
      the first deletion time stands and the write is suppressed. */
  lemma DeletingTwiceIsSuppressed(h: seq<Row>, k: Key, now: int)
    requires h != [] && h[|h| - 1].deletion.Some? && SawHistory(DeleteLatestCall(|h| - 1, now), h)
    ensures Suppressed(Some(h[|h| - 1]), RequestOf(k, DeleteLatestCall(|h| - 1, now), h))
  {
  }

  /** In every state, a client call that passes clears a deletion exactly when it is an
      update that read too early. */
  lemma CallClearsIff(db: Db, op: DbOp, call: Call)
    requires RowsAreLast(db) && UidsOwned(db) && Enabled(db, op) && op.Upserting? && IssuedBy(db, op, call)
    ensures var h, v := HistoryOf(db, op.req.key), Upsert(Lookup(db, op.req.key), op.req, op.xid, op.uid, op.now);
            v.Put? && h != [] ==> (KeepsDeletion(h[|h| - 1], v.row) <==> !ReadsTooEarly(h, call))
  {
    var k, h := op.req.key, HistoryOf(db, op.req.key);
    if h != [] {
      assert h[|h| - 1].uid in db.owner;
      assert k in db.rows ==> Lookup(db, k) == Some(h[|h| - 1]);
      PassingCallClearsIff(h, Lookup(db, k), k, call, op.xid, op.uid, op.now);
    }
  }

  /** With a version of the current uid no passing call clears a deletion. */
  lemma CallKeepsDeletion(db: Db, op: DbOp, call: Call)
    requires RowsAreLast(db) && AllChained(db) && UidsOwned(db) && Enabled(db, op) && op.Upserting?
    requires IssuedBy(db, op, call) && ObservedCurrent(db, op, call)
    ensures var h, v := HistoryOf(db, op.req.key), Upsert(Lookup(db, op.req.key), op.req, op.xid, op.uid, op.now);
            v.Put? && h != [] ==> KeepsDeletion(h[|h| - 1], v.row)
  {
    var k, h := op.req.key, HistoryOf(db, op.req.key);
    CallClearsIff(db, op, call);
    if h != [] && call.UpdateCall? && k in db.rows && h[|h| - 1].version == h[call.observed].version {
      UpdateReadWhatItReplaces(h, call.observed, call.read);
    }
  }

  lemma OneWayExtends(h: seq<Row>, row: Row)
    requires OneWay(h) && (h != [] ==> KeepsDeletion(h[|h| - 1], row))
    ensures OneWay(h + [row])
  {
  }

  lemma CommitKeepsDeletions(db: Db, x: nat)
    requires LocksOk(db) && DeletionsStand(db) && x in db.open && db.open[x].Wrote?
    ensures DeletionsStand(Apply(db, Commit(x)))
  {
    var db', k, row := Apply(db, Commit(x)), db.open[x].key, db.open[x].row;
    OneWayExtends(HistoryOf(db, k), row);
    assert forall j :: HistoryOf(db', j) == if j == k then HistoryOf(db, k) + [row] else HistoryOf(db, j);
    assert Touches(db.open[x], k);
    forall y | y in db'.open && db'.open[y].Wrote?
      ensures db'.open[y].key != k
    {
      assert !Touches(db.open[y], k);
    }
  }

  lemma UpsertKeepsDeletions(db: Db, op: DbOp)
    requires DeletionsStand(db) && Enabled(db, op) && op.Upserting?
    requires var h, v := HistoryOf(db, op.req.key), Upsert(Lookup(db, op.req.key), op.req, op.xid, op.uid, op.now);
             v.Put? && h != [] ==> KeepsDeletion(h[|h| - 1], v.row)
    ensures DeletionsStand(Apply(db, op))
  {
    assert forall j :: HistoryOf(Apply(db, op), j) == HistoryOf(db, j);
  }

  lemma DeletionsFrame(db: Db, db': Db)
    requires DeletionsStand(db) && db'.history == db.history
    requires forall x :: x in db'.open && db'.open[x].Wrote? ==> x in db.open && db'.open[x] == db.open[x]
    ensures DeletionsStand(db')
  {
    assert forall j :: HistoryOf(db', j) == HistoryOf(db, j);
  }

  lemma DeletionsStep(db: Db, op: DbOp, call: Call)
    requires Recorded(db) && DeletionsStand(db) && Enabled(db, op)
    requires IssuedBy(db, op, call) && ObservedCurrent(db, op, call)
    ensures DeletionsStand(Apply(db, op))
  {
    if op.Commit? && db.open[op.xid].Wrote? {
      CommitKeepsDeletions(db, op.xid);
    } else if op.Upserting? {
      CallKeepsDeletion(db, op, call);
      UpsertKeepsDeletions(db, op);
    } else {
      DeletionsFrame(db, Apply(db, op));
    }
  }

  /** A run all of whose writes come from client calls, one call per step. */
  ghost predicate IssuedRun(db: Db, ops: seq<DbOp>, calls: seq<Call>)
    ensures IssuedRun(db, ops, calls) ==> Legal(db, ops)
    decreases |ops|
  {
    && |calls| == |ops|
    && (ops != [] ==>
          && Enabled(db, ops[0]) && IssuedBy(db, ops[0], calls[0])
          && IssuedRun(Apply(db, ops[0]), ops[1..], calls[1..]))
  }

  /** Every update of the run carries a version of the uid it writes to. */
  ghost predicate CurrentRun(db: Db, ops: seq<DbOp>, calls: seq<Call>)
    requires IssuedRun(db, ops, calls)
    decreases |ops|
  {
    ops != [] ==> ObservedCurrent(db, ops[0], calls[0]) && CurrentRun(Apply(db, ops[0]), ops[1..], calls[1..])
  }

  lemma {:induction false} CurrentRunKeeps(db: Db, ops: seq<DbOp>, calls: seq<Call>)
    requires Recorded(db) && DeletionsStand(db) && IssuedRun(db, ops, calls) && CurrentRun(db, ops, calls)
    ensures Recorded(Exec(db, ops)) && DeletionsStand(Exec(db, ops))
    decreases |ops|
  {
    if ops == [] {
    } else {
      RecordedStep(db, ops[0]);
      DeletionsStep(db, ops[0], calls[0]);
      CurrentRunKeeps(Apply(db, ops[0]), ops[1..], calls[1..]);
    }
  }

  lemma {:induction false} DeletionPersists(h: seq<Row>, i: nat, j: nat)
    requires Chained(h) && OneWay(h) && i <= j < |h|
    requires h[i].uid == h[j].uid && h[i].deletion.Some?
    ensures h[j].deletion.Some?
    decreases j - i
  {
    if i == j {
    } else {
      SameUidContiguous(h, i, j);
      DeletionPersists(h, i, j - 1);
      assert KeepsDeletion(h[j - 1], h[j]);
    }
  }

  /** In every interleaving of client calls whose updates carry versions of the uid they
      write to, once an incarnation is marked for deletion every later commit of that
      incarnation is too. */
  lemma DeletionIsOneWay(ops: seq<DbOp>, calls: seq<Call>, k: Key, i: nat, j: nat)
    requires IssuedRun(Empty(), ops, calls) && CurrentRun(Empty(), ops, calls)
    requires i <= j < |HistoryOf(Exec(Empty(), ops), k)|
    requires HistoryOf(Exec(Empty(), ops), k)[i].uid == HistoryOf(Exec(Empty(), ops), k)[j].uid
    requires HistoryOf(Exec(Empty(), ops), k)[i].deletion.Some?
    ensures HistoryOf(Exec(Empty(), ops), k)[j].deletion.Some?
  {
    EmptyRecorded();
    CurrentRunKeeps(Empty(), ops, calls);
    DeletionPersists(HistoryOf(Exec(Empty(), ops), k), i, j);
  }
}
