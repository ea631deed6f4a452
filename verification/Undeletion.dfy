/** When an update can undo a deletion after all.

    Versions restart at 1 with each incarnation, so an update may pass the version check
    against an incarnation it never saw.  Its caller cannot rule that out by its own
    version unless that version is 1. */
module Undeletion {
  import opened Basics
  import opened Tombstone
  import opened Rows
  import opened Database
  import opened History
  import opened Deletion
  import opened Framing

  const PLAIN := Metadata(Absent, "", true)
  const GUARDED := Metadata(Names(["cleanup"]), "", true)

  /** The call's write is possible now and clears the deletion of the row it replaces. */
  ghost predicate Clears(db: Db, k: Key, call: Call, xid: nat, uid: nat, now: int) {
    && SawHistory(call, HistoryOf(db, k)) && k in db.rows
    && var req := RequestOf(k, call, HistoryOf(db, k));
       && Enabled(db, Upserting(xid, req, uid, now))
       && var v := Upsert(Some(db.rows[k]), req, xid, uid, now);
          && v.Put? && v.row.uid == db.rows[k].uid
          && db.rows[k].deletion.Some? && v.row.deletion.None?
  }

  /** Some way of going on with client calls leads to that point. */
  ghost predicate CanClear(db: Db, k: Key, call: Call) {
    exists ops: seq<DbOp>, calls: seq<Call>, xid: nat, uid: nat, now: int ::
      IssuedRun(db, ops, calls) && Clears(Exec(db, ops), k, call, xid, uid, now)
  }

  // ---- Version 1 is never deleted ----

  /** First versions carry no deletion timestamp. */
  ghost predicate BornAlive(db: Db) {
    && (forall k, n :: 0 <= n < |HistoryOf(db, k)| && HistoryOf(db, k)[n].version == 1 ==>
          HistoryOf(db, k)[n].deletion.None?)
    && (forall x :: x in db.open && db.open[x].Wrote? && db.open[x].row.version == 1 ==>
          db.open[x].row.deletion.None?)
  }

  lemma PutBornAlive(h: seq<Row>, current: Option<Row>, k: Key, call: Call, xid: nat, uid: nat, now: int)
    requires SawHistory(call, h) && forall i :: 0 <= i < |h| ==> h[i].version >= 1
    requires current.Some? ==> h != [] && current.value == h[|h| - 1]
    ensures var v := Upsert(current, RequestOf(k, call, h), xid, uid, now);
            v.Put? && v.row.version == 1 ==> v.row.deletion.None?
  {
  }

  lemma AllFromOne(h: seq<Row>)
    requires Chained(h)
    ensures forall i :: 0 <= i < |h| ==> h[i].version >= 1
  {
    forall i | 0 <= i < |h|
      ensures h[i].version >= 1
    {
      VersionsCountUp(h, i);
    }
  }

  lemma UpsertBornAlive(db: Db, op: DbOp, call: Call)
    requires RowsAreLast(db) && AllChained(db) && BornAlive(db)
    requires Enabled(db, op) && op.Upserting? && IssuedBy(db, op, call)
    ensures BornAlive(Apply(db, op))
  {
    var db', k, h := Apply(db, op), op.req.key, HistoryOf(db, op.req.key);
    AllFromOne(h);
    PutBornAlive(h, Lookup(db, k), k, call, op.xid, op.uid, op.now);
    forall j, n | 0 <= n < |HistoryOf(db', j)| && HistoryOf(db', j)[n].version == 1
      ensures HistoryOf(db', j)[n].deletion.None?
    {
      UpsertKeepsHistory(db, op, j);
    }
  }

  lemma CommitBornAlive(db: Db, x: nat)
    requires BornAlive(db) && x in db.open && db.open[x].Wrote?
    ensures BornAlive(Apply(db, Commit(x)))
  {
    var db', k, row := Apply(db, Commit(x)), db.open[x].key, db.open[x].row;
    forall j, n | 0 <= n < |HistoryOf(db', j)| && HistoryOf(db', j)[n].version == 1
      ensures HistoryOf(db', j)[n].deletion.None?
    {
      if j == k {
        assert HistoryOf(db', k) == HistoryOf(db, k) + [row];
      } else {
        assert HistoryOf(db', j) == HistoryOf(db, j);
      }
    }
  }

  lemma BornAliveFrame(db: Db, db': Db)
    requires BornAlive(db) && db'.history == db.history
    requires forall x :: x in db'.open && db'.open[x].Wrote? ==> x in db.open && db'.open[x] == db.open[x]
    ensures BornAlive(db')
  {
    assert forall k :: HistoryOf(db', k) == HistoryOf(db, k);
  }

  lemma BornAliveStep(db: Db, op: DbOp, call: Call)
    requires Recorded(db) && BornAlive(db) && Enabled(db, op) && IssuedBy(db, op, call)
    ensures BornAlive(Apply(db, op))
  {
    if op.Upserting? {
      UpsertBornAlive(db, op, call);
    } else if op.Commit? && db.open[op.xid].Wrote? {
      CommitBornAlive(db, op.xid);
    } else {
      BornAliveFrame(db, Apply(db, op));
    }
  }

  /** A run of client calls keeps the past and the records. */
  lemma {:induction false} IssuedRunKeeps(db: Db, ops: seq<DbOp>, calls: seq<Call>, k: Key)
    requires Recorded(db) && BornAlive(db) && IssuedRun(db, ops, calls)
    ensures Recorded(Exec(db, ops)) && BornAlive(Exec(db, ops))
    ensures HistoryOf(db, k) <= HistoryOf(Exec(db, ops), k)
    decreases |ops|
  {
    if ops == [] {
    } else {
      RecordedStep(db, ops[0]);
      BornAliveStep(db, ops[0], calls[0]);
      HistoryGrows(db, ops[0], k);
      IssuedRunKeeps(Apply(db, ops[0]), ops[1..], calls[1..], k);
    }
  }

  /** What clearing takes, seen in the history at that point. */
  lemma ClearingNeeds(db: Db, k: Key, call: Call, xid: nat, uid: nat, now: int)
    requires RowsAreLast(db) && call.UpdateCall? && Clears(db, k, call, xid, uid, now)
    ensures var h := HistoryOf(db, k);
            && h != [] && h[|h| - 1].deletion.Some? && h[|h| - 1].version == h[call.observed].version
            && h[call.read].deletion.None?
  {
  }

  lemma DeletedIsVersionTwo(db: Db, k: Key)
    requires AllChained(db) && BornAlive(db) && HistoryOf(db, k) != []
    ensures var h := HistoryOf(db, k); h[|h| - 1].deletion.Some? ==> h[|h| - 1].version >= 2
  {
    VersionsCountUp(HistoryOf(db, k), |HistoryOf(db, k)| - 1);
  }

  lemma ClearingNeedsVersionTwo(db: Db, k: Key, call: Call)
    requires Recorded(db) && BornAlive(db) && call.UpdateCall? && SawHistory(call, HistoryOf(db, k))
    requires CanClear(db, k, call)
    ensures HistoryOf(db, k)[call.observed].version >= 2 && HistoryOf(db, k)[call.read].deletion.None?
  {
    var ops, calls, xid: nat, uid: nat, now :|
      IssuedRun(db, ops, calls) && Clears(Exec(db, ops), k, call, xid, uid, now);
    IssuedRunKeeps(db, ops, calls, k);
    var db' := Exec(db, ops);
    ClearingNeeds(db', k, call, xid, uid, now);
    DeletedIsVersionTwo(db', k);
  }

  // ---- From version 2 on there is a way ----

  /** `ops`, issued by `calls`, lead from `db` to `db'`, where nobody holds `k`. */
  ghost predicate Leads(db: Db, ops: seq<DbOp>, calls: seq<Call>, db': Db, k: Key) {
    && IssuedRun(db, ops, calls) && Exec(db, ops) == db'
    && Recorded(db') && Unlocked(db', k) && HistoryOf(db, k) <= HistoryOf(db', k)
  }

  lemma {:induction false} IssuedConcat(db: Db, a: seq<DbOp>, ca: seq<Call>, b: seq<DbOp>, cb: seq<Call>)
    requires IssuedRun(db, a, ca) && IssuedRun(Exec(db, a), b, cb)
    ensures IssuedRun(db, a + b, ca + cb)
    decreases |a|
  {
    if a == [] {
      assert a + b == b && ca + cb == cb;
    } else {
      assert (a + b)[0] == a[0] && (a + b)[1..] == a[1..] + b;
      assert (ca + cb)[0] == ca[0] && (ca + cb)[1..] == ca[1..] + cb;
      IssuedConcat(Apply(db, a[0]), a[1..], ca[1..], b, cb);
    }
  }

  lemma LeadsOn(db: Db, a: seq<DbOp>, ca: seq<Call>, mid: Db, b: seq<DbOp>, cb: seq<Call>, db': Db, k: Key)
    requires Leads(db, a, ca, mid, k) && Leads(mid, b, cb, db', k)
    ensures Leads(db, a + b, ca + cb, db', k)
  {
    IssuedConcat(db, a, ca, b, cb);
    ExecConcat(db, a, b);
  }

  lemma IssuedThen(db: Db, op: DbOp, call: Call, rest: seq<DbOp>, calls: seq<Call>)
    requires Enabled(db, op) && IssuedBy(db, op, call) && IssuedRun(Apply(db, op), rest, calls)
    ensures IssuedRun(db, [op] + rest, [call] + calls)
  {
    assert ([op] + rest)[1..] == rest && ([call] + calls)[1..] == calls;
  }

  /** The steps of a write, issued by `call`. */
  lemma WriteIssued(db: Db, call: Call, req: Request, row: Row, uid: nat, now: int)
    requires db.next !in db.open && Unlocked(db, req.key) && uid !in db.owner && MetadataFromClient(req)
    requires Upsert(Lookup(db, req.key), req, db.next, uid, now) == Put(row)
    requires SawHistory(call, HistoryOf(db, req.key)) && req == RequestOf(req.key, call, HistoryOf(db, req.key))
    ensures IssuedRun(db, WriteSteps(db, req, uid, now), [call, call, call])
  {
    var write, end := Upserting(db.next, req, uid, now), Commit(db.next);
    AcquireAndUpsert(db, req, uid, now, row);
    CommitOfNext(db, req, row, now);
    var db1 := Apply(db, Begin);
    var db2 := Apply(db1, write);
    IssuedThen(db2, end, call, [], []);
    assert HistoryOf(db1, req.key) == HistoryOf(db, req.key);
    IssuedThen(db1, write, call, [end] + [], [call] + []);
    IssuedThen(db, Begin, call, [write] + ([end] + []), [call] + ([call] + []));
    assert [Begin] + ([write] + ([end] + [])) == WriteSteps(db, req, uid, now);
    assert [call] + ([call] + ([call] + [])) == [call, call, call];
  }

  /** One client call on its own. */
  lemma SerialCall(db: Db, k: Key, call: Call, row: Row, uid: nat, now: int)
    returns (ops: seq<DbOp>, calls: seq<Call>, db': Db)
    requires Recorded(db) && Unlocked(db, k) && uid !in db.owner && SawHistory(call, HistoryOf(db, k))
    requires var req := RequestOf(k, call, HistoryOf(db, k));
             MetadataFromClient(req) && Upsert(Lookup(db, k), req, db.next, uid, now) == Put(row)
    ensures Leads(db, ops, calls, db', k)
    ensures HistoryOf(db', k) == HistoryOf(db, k) + [row] && Lookup(db', k) == Some(row)
  {
    var req := RequestOf(k, call, HistoryOf(db, k));
    ops, calls := WriteSteps(db, req, uid, now), [call, call, call];
    WriteUninterrupted(db, req, uid, now);
    WriteIssued(db, call, req, row, uid, now);
    RecordedRun(db, ops);
    db' := Committed(db, req, row, now);
  }

  /** If another transaction holds `k`, let it roll back. */
  lemma Release(db: Db, k: Key) returns (ops: seq<DbOp>, calls: seq<Call>, db': Db)
    requires Recorded(db)
    ensures Leads(db, ops, calls, db', k) && HistoryOf(db', k) == HistoryOf(db, k)
  {
    if Unlocked(db, k) {
      ops, calls, db' := [], [], db;
    } else {
      var x :| x in db.open && Touches(db.open[x], k);
      ops, calls, db' := [Abort(x)], [StatusCall(0, "")], Apply(db, Abort(x));
      RecordedStep(db, Abort(x));
      StepThen(db, Abort(x), []);
      assert [Abort(x)] + [] == [Abort(x)];
      assert IssuedRun(db', [], []) && ops[1..] == [] && calls[1..] == [];
    }
  }

  /** `k` is ready to be created: absent or a tombstone. */
  predicate Vacated(db: Db, k: Key) { k in db.rows ==> IsTombstone(db.rows[k]) }

  /** The object at `k` and its history. */
  ghost predicate Latest(db: Db, k: Key, h: seq<Row>) {
    HistoryOf(db, k) == h && h != [] && Lookup(db, k) == Some(h[|h| - 1]) && h[|h| - 1].version >= 1
  }

  lemma PresentIsLatest(db: Db, k: Key)
    requires RowsAreLast(db) && AllChained(db) && k in db.rows
    ensures Latest(db, k, HistoryOf(db, k))
  {
    VersionsCountUp(HistoryOf(db, k), |HistoryOf(db, k)| - 1);
  }

  lemma DeletePuts(h: seq<Row>, k: Key, xid: nat, uid: nat) returns (call: Call, row: Row)
    requires h != [] && h[|h| - 1].version >= 1
    ensures SawHistory(call, h) && MetadataFromClient(RequestOf(k, call, h))
    ensures Upsert(Some(h[|h| - 1]), RequestOf(k, call, h), xid, uid, 0) == Put(row) && IsTombstone(row)
  {
    call := DeleteCall(|h| - 1, "", "", PLAIN, 0);
    row := Upsert(Some(h[|h| - 1]), RequestOf(k, call, h), xid, uid, 0).row;
  }

  /** Delete the object without finalizers, unless it is gone already. */
  lemma Vacate(db: Db, k: Key) returns (ops: seq<DbOp>, calls: seq<Call>, db': Db)
    requires Recorded(db) && Unlocked(db, k)
    ensures Leads(db, ops, calls, db', k) && Vacated(db', k)
  {
    if Vacated(db, k) {
      ops, calls, db' := [], [], db;
    } else {
      PresentIsLatest(db, k);
      var uid := Above(db.owner.Keys);
      var call, row := DeletePuts(HistoryOf(db, k), k, db.next, uid);
      ops, calls, db' := SerialCall(db, k, call, row, uid, 0);
    }
  }

  /** A history that ends in version `v` of an incarnation begun at position `n` or later. */
  ghost predicate NewSince(h: seq<Row>, v: int, n: nat) {
    n < |h| && h[|h| - 1].version == v && forall i :: 0 <= i < n ==> h[i].uid != h[|h| - 1].uid
  }

  /** The object at `k` is live, under a finalizer, at version `v`. */
  ghost predicate LiveAt(db: Db, k: Key, v: int, n: nat) {
    var h := HistoryOf(db, k);
    Latest(db, k, h) && NewSince(h, v, n) && h[|h| - 1].deletion.None? && h[|h| - 1].metadata == GUARDED
  }

  /** The object at `k` is dying at version `v`. */
  ghost predicate DyingAt(db: Db, k: Key, v: int, n: nat) {
    var h := HistoryOf(db, k);
    Latest(db, k, h) && NewSince(h, v, n) && h[|h| - 1].deletion.Some?
  }

  lemma NewSinceExtends(h: seq<Row>, row: Row, v: int, n: nat)
    requires NewSince(h, v, n) && row.uid == h[|h| - 1].uid && row.version == v + 1
    ensures NewSince(h + [row], v + 1, n)
  {
  }

  lemma Recreate(db: Db, k: Key) returns (ops: seq<DbOp>, calls: seq<Call>, db': Db)
    requires Recorded(db) && Unlocked(db, k) && Vacated(db, k)
    ensures Leads(db, ops, calls, db', k) && LiveAt(db', k, 1, |HistoryOf(db, k)|)
  {
    var h := HistoryOf(db, k);
    var uid := Above(db.owner.Keys);
    var call := CreateCall("", "", GUARDED);
    var row := Upsert(Lookup(db, k), RequestOf(k, call, h), db.next, uid, 0).row;
    ops, calls, db' := SerialCall(db, k, call, row, uid, 0);
    assert forall i :: 0 <= i < |h| ==> h[i].uid in db.owner;
  }

  lemma UpdatePuts(h: seq<Row>, k: Key, xid: nat, uid: nat) returns (call: Call, row: Row)
    requires h != [] && h[|h| - 1].version >= 1 && h[|h| - 1].deletion.None?
    ensures SawHistory(call, h) && MetadataFromClient(RequestOf(k, call, h))
    ensures Upsert(Some(h[|h| - 1]), RequestOf(k, call, h), xid, uid, 0) == Put(row)
    ensures row.uid == h[|h| - 1].uid && row.version == h[|h| - 1].version + 1
    ensures row.deletion.None? && row.metadata == GUARDED && row.spec != h[|h| - 1].spec
  {
    call := UpdateCall(|h| - 1, |h| - 1, h[|h| - 1].spec + "x", GUARDED);
    row := Upsert(Some(h[|h| - 1]), RequestOf(k, call, h), xid, uid, 0).row;
    assert |row.spec| == |h[|h| - 1].spec| + 1;
  }

  lemma UpdateOnce(db: Db, k: Key, v: int, n: nat) returns (ops: seq<DbOp>, calls: seq<Call>, db': Db)
    requires Recorded(db) && Unlocked(db, k) && LiveAt(db, k, v, n)
    ensures Leads(db, ops, calls, db', k) && LiveAt(db', k, v + 1, n)
  {
    var uid := Above(db.owner.Keys);
    var call, row := UpdatePuts(HistoryOf(db, k), k, db.next, uid);
    ops, calls, db' := SerialCall(db, k, call, row, uid, 0);
    NewSinceExtends(HistoryOf(db, k), row, v, n);
  }

  lemma {:induction false} UpdateUpTo(db: Db, k: Key, from: int, v: int, n: nat)
    returns (ops: seq<DbOp>, calls: seq<Call>, db': Db)
    requires Recorded(db) && Unlocked(db, k) && LiveAt(db, k, from, n) && from <= v
    ensures Leads(db, ops, calls, db', k) && LiveAt(db', k, v, n)
    decreases v - from
  {
    if from == v {
      ops, calls, db' := [], [], db;
    } else {
      var mid, rest, more;
      ops, calls, mid := UpdateOnce(db, k, from, n);
      rest, more, db' := UpdateUpTo(mid, k, from + 1, v, n);
      LeadsOn(db, ops, calls, mid, rest, more, db', k);
      ops, calls := ops + rest, calls + more;
    }
  }

  lemma MarkPuts(h: seq<Row>, k: Key, xid: nat, uid: nat) returns (call: Call, row: Row)
    requires h != [] && h[|h| - 1].version >= 1 && h[|h| - 1].deletion.None? && h[|h| - 1].metadata == GUARDED
    ensures SawHistory(call, h) && MetadataFromClient(RequestOf(k, call, h))
    ensures Upsert(Some(h[|h| - 1]), RequestOf(k, call, h), xid, uid, 0) == Put(row)
    ensures row.uid == h[|h| - 1].uid && row.version == h[|h| - 1].version + 1 && row.deletion.Some?
  {
    call := DeleteLatestCall(|h| - 1, 0);
    row := Upsert(Some(h[|h| - 1]), RequestOf(k, call, h), xid, uid, 0).row;
  }

  lemma DeleteOnce(db: Db, k: Key, v: int, n: nat) returns (ops: seq<DbOp>, calls: seq<Call>, db': Db)
    requires Recorded(db) && Unlocked(db, k) && LiveAt(db, k, v, n)
    ensures Leads(db, ops, calls, db', k) && DyingAt(db', k, v + 1, n)
  {
    var uid := Above(db.owner.Keys);
    var call, row := MarkPuts(HistoryOf(db, k), k, db.next, uid);
    ops, calls, db' := SerialCall(db, k, call, row, uid, 0);
    NewSinceExtends(HistoryOf(db, k), row, v, n);
  }

  /** From anywhere: a new incarnation, live at version `v`. */
  lemma NewIncarnation(db: Db, k: Key, v: int) returns (ops: seq<DbOp>, calls: seq<Call>, db': Db)
    requires Recorded(db) && v >= 1
    ensures Leads(db, ops, calls, db', k) && LiveAt(db', k, v, |HistoryOf(db, k)|)
  {
    var d1, d2, d3, ops1, calls1;
    ops, calls, d1 := Release(db, k);
    ops1, calls1, d2 := Vacate(d1, k);
    LeadsOn(db, ops, calls, d1, ops1, calls1, d2, k);
    ops, calls := ops + ops1, calls + calls1;
    ops1, calls1, d3 := Recreate(d2, k);
    LeadsOn(db, ops, calls, d2, ops1, calls1, d3, k);
    ops, calls := ops + ops1, calls + calls1;
    ops1, calls1, db' := UpdateUpTo(d3, k, 1, v, |HistoryOf(d2, k)|);
    LeadsOn(db, ops, calls, d3, ops1, calls1, db', k);
    ops, calls := ops + ops1, calls + calls1;
  }

  lemma NewDyingIncarnation(db: Db, k: Key, v: int) returns (ops: seq<DbOp>, calls: seq<Call>, db': Db)
    requires Recorded(db) && v >= 2
    ensures Leads(db, ops, calls, db', k) && DyingAt(db', k, v, |HistoryOf(db, k)|)
  {
    var mid, ops1, calls1;
    ops, calls, mid := NewIncarnation(db, k, v - 1);
    ops1, calls1, db' := DeleteOnce(mid, k, v - 1, |HistoryOf(db, k)|);
    LeadsOn(db, ops, calls, mid, ops1, calls1, db', k);
    ops, calls := ops + ops1, calls + calls1;
  }

  lemma BeginNext(db: Db, k: Key) returns (ops: seq<DbOp>, calls: seq<Call>, db': Db)
    requires Recorded(db) && Unlocked(db, k)
    ensures Leads(db, ops, calls, db', k) && db' == Apply(db, Begin)
  {
    ops, calls, db' := [Begin], [StatusCall(0, "")], Apply(db, Begin);
    RecordedStep(db, Begin);
    StepThen(db, Begin, []);
    assert [Begin] + [] == [Begin];
    assert IssuedRun(db', [], []) && ops[1..] == [] && calls[1..] == [];
  }

  /** The stale update passes. */
  lemma StaleUpdateClears(h: seq<Row>, k: Key, call: Call, v: int, n: nat, xid: nat, uid: nat)
    requires call.UpdateCall? && SawHistory(call, h) && n <= |h| && call.read < n && v >= 2
    requires h[call.observed].version == v && h[call.read].deletion.None?
    requires NewSince(h, v, n) && h[|h| - 1].deletion.Some?
    ensures var u := Upsert(Some(h[|h| - 1]), RequestOf(k, call, h), xid, uid, 0);
            u.Put? && u.row.uid == h[|h| - 1].uid && u.row.deletion.None?
  {
  }

  /** Anyone may take the next id. */
  lemma BeginEnables(db: Db, k: Key, req: Request, uid: nat)
    requires db.next !in db.open && Unlocked(db, k) && uid !in db.owner && req.key == k && MetadataFromClient(req)
    ensures Enabled(Apply(db, Begin), Upserting(db.next, req, uid, 0))
    ensures HistoryOf(Apply(db, Begin), k) == HistoryOf(db, k) && Apply(db, Begin).rows == db.rows
  {
  }

  /** An update that holds version 2 or later and has read an undeleted row: other client
      calls can bring about a later incarnation that it undeletes. */
  lemma ClearingRun(db: Db, k: Key, call: Call)
    returns (ops: seq<DbOp>, calls: seq<Call>, db': Db, xid: nat, uid: nat)
    requires Recorded(db) && call.UpdateCall? && SawHistory(call, HistoryOf(db, k)) && ClientMade(call.metadata)
    requires HistoryOf(db, k)[call.observed].version >= 2 && HistoryOf(db, k)[call.read].deletion.None?
    ensures Leads(db, ops, calls, db', k) && Clears(db', k, call, xid, uid, 0)
    ensures NewSince(HistoryOf(db', k), HistoryOf(db, k)[call.observed].version, |HistoryOf(db, k)|)
  {
    var h := HistoryOf(db, k);
    var v := h[call.observed].version;
    var mid, ops1, calls1;
    ops, calls, mid := NewDyingIncarnation(db, k, v);
    ops1, calls1, db' := BeginNext(mid, k);
    LeadsOn(db, ops, calls, mid, ops1, calls1, db', k);
    ops, calls := ops + ops1, calls + calls1;
    xid := mid.next;
    uid := Above(mid.owner.Keys);
    BeginClears(mid, k, h, call, v, uid);
  }

  lemma BeginClears(mid: Db, k: Key, h: seq<Row>, call: Call, v: int, uid: nat)
    requires IdsOk(mid) && Unlocked(mid, k) && uid !in mid.owner && h <= HistoryOf(mid, k)
    requires call.UpdateCall? && SawHistory(call, h) && ClientMade(call.metadata)
    requires h[call.observed].version == v >= 2 && h[call.read].deletion.None? && DyingAt(mid, k, v, |h|)
    ensures Clears(Apply(mid, Begin), k, call, mid.next, uid, 0)
  {
    var h' := HistoryOf(mid, k);
    assert h'[call.observed] == h[call.observed] && h'[call.read] == h[call.read];
    StaleUpdateClears(h', k, call, v, |h|, mid.next, uid);
    BeginEnables(mid, k, RequestOf(k, call, h'), uid);
  }

  /** After any run of client calls, consider an update that has read its row: other client
      calls can bring it to clear a deletion if and only if it holds version 2 or later and
      the row it read was not deleted. */
  lemma UpdateCanClearIff(past: seq<DbOp>, issued: seq<Call>, k: Key, call: Call)
    requires IssuedRun(Empty(), past, issued) && call.UpdateCall?
    requires SawHistory(call, HistoryOf(Exec(Empty(), past), k)) && ClientMade(call.metadata)
    ensures var db := Exec(Empty(), past);
            CanClear(db, k, call)
            <==> HistoryOf(db, k)[call.observed].version >= 2 && HistoryOf(db, k)[call.read].deletion.None?
  {
    EmptyRecorded();
    IssuedRunKeeps(Empty(), past, issued, k);
    var db := Exec(Empty(), past);
    if CanClear(db, k, call) {
      ClearingNeedsVersionTwo(db, k, call);
    } else if HistoryOf(db, k)[call.observed].version >= 2 && HistoryOf(db, k)[call.read].deletion.None? {
      var ops, calls, db', xid, uid := ClearingRun(db, k, call);
    }
  }

  /** The stale update of a live object at version 2. */
  lemma StaleUpdate(db: Db, k: Key, n: nat) returns (call: Call)
    requires LiveAt(db, k, 2, n)
    ensures call.UpdateCall? && SawHistory(call, HistoryOf(db, k)) && ClientMade(call.metadata)
    ensures HistoryOf(db, k)[call.observed].version == 2 && HistoryOf(db, k)[call.read].deletion.None?
  {
    var last := |HistoryOf(db, k)| - 1;
    call := UpdateCall(last, last, "stale", GUARDED);
  }

  lemma StaleUpdateUndeletes(db: Db, k: Key, n: nat)
    returns (call: Call, ops: seq<DbOp>, calls: seq<Call>, db': Db, xid: nat, uid: nat)
    requires Recorded(db) && LiveAt(db, k, 2, n)
    ensures call.UpdateCall? && SawHistory(call, HistoryOf(db, k))
    ensures Leads(db, ops, calls, db', k) && Clears(db', k, call, xid, uid, 0)
    ensures db'.rows[k].uid != HistoryOf(db, k)[call.observed].uid
  {
    call := StaleUpdate(db, k, n);
    ops, calls, db', xid, uid := ClearingRun(db, k, call);
    ClearedIsNew(db, db', k, call);
  }

  /** The promise fails across incarnations: a run made of client calls only, in which an
      update holding version 2 of one uid, and having read that very row, clears the
      deletion of another. */
  lemma UpdateAcrossIncarnationsUndeletes(k: Key)
    returns (past: seq<DbOp>, before: seq<Call>, db: Db, call: Call,
             ops: seq<DbOp>, calls: seq<Call>, db': Db, xid: nat, uid: nat)
    ensures Leads(Empty(), past, before, db, k)
    ensures call.UpdateCall? && SawHistory(call, HistoryOf(db, k))
    ensures Leads(db, ops, calls, db', k) && Clears(db', k, call, xid, uid, 0)
    ensures db'.rows[k].uid != HistoryOf(db, k)[call.observed].uid
  {
    EmptyRecorded();
    past, before, db := NewIncarnation(Empty(), k, 2);
    call, ops, calls, db', xid, uid := StaleUpdateUndeletes(db, k, 0);
  }

  lemma ClearedIsNew(db: Db, db': Db, k: Key, call: Call)
    requires RowsAreLast(db') && k in db'.rows && HistoryOf(db, k) <= HistoryOf(db', k)
    requires call.UpdateCall? && SawHistory(call, HistoryOf(db, k))
    requires NewSince(HistoryOf(db', k), HistoryOf(db, k)[call.observed].version, |HistoryOf(db, k)|)
    ensures db'.rows[k].uid != HistoryOf(db, k)[call.observed].uid
  {
    assert HistoryOf(db', k)[call.observed] == HistoryOf(db, k)[call.observed];
  }

  // ---- Whatever the callers hold ----

  /** `call`, seeing the first `m` entries of the history, issued the cause's request, and
      its upsert found the last of them, if any. */
  ghost predicate WroteFor(call: Call, c: Cause, h: seq<Row>, m: nat) {
    && m <= |h| && SawHistory(call, h[..m]) && c.req == RequestOf(c.req.key, call, h[..m])
    && (c.found.Some? ==> m > 0 && c.found.value == h[m - 1])
  }

  /** Call `i` of the run issued what transaction `x` wrote. */
  ghost predicate Behind(ops: seq<DbOp>, calls: seq<Call>, i: nat, x: nat, c: Cause, h: seq<Row>) {
    i < |ops| && i < |calls| && ops[i].Upserting? && ops[i].xid == x && exists m: nat :: WroteFor(calls[i], c, h, m)
  }

  lemma {:induction false} RunHistoryGrows(db: Db, ops: seq<DbOp>, k: Key)
    requires Legal(db, ops)
    ensures HistoryOf(db, k) <= HistoryOf(Exec(db, ops), k)
    decreases |ops|
  {
    if ops == [] {
    } else {
      HistoryGrows(db, ops[0], k);
      RunHistoryGrows(Apply(db, ops[0]), ops[1..], k);
    }
  }

  lemma UpsertWroteFor(db: Db, op: DbOp, call: Call, h: seq<Row>)
    requires RowsAreLast(db) && op.Upserting? && IssuedBy(db, op, call) && HistoryOf(db, op.req.key) <= h
    ensures WroteFor(call, Cause(op.req, Lookup(db, op.req.key), op.now), h, |HistoryOf(db, op.req.key)|)
  {
    assert h[..|HistoryOf(db, op.req.key)|] == HistoryOf(db, op.req.key);
  }

  lemma StepKeepsCause(db: Db, op: DbOp, x: nat)
    requires CausesClosed(db) && Enabled(db, op) && x in db.causes
    ensures x in Apply(db, op).causes && Apply(db, op).causes[x] == db.causes[x]
  {
  }

  /** A transaction writes once. */
  lemma {:induction false} RunKeepsCause(db: Db, ops: seq<DbOp>, x: nat)
    requires Explained(db) && Legal(db, ops) && x in db.causes
    ensures x in Exec(db, ops).causes && Exec(db, ops).causes[x] == db.causes[x]
    decreases |ops|
  {
    if ops == [] {
    } else {
      ExplainedStep(db, ops[0]);
      StepKeepsCause(db, ops[0], x);
      RunKeepsCause(Apply(db, ops[0]), ops[1..], x);
    }
  }

  /** Every row written in a run of client calls goes back to one of them. */
  lemma {:induction false} CallBehindCause(db: Db, ops: seq<DbOp>, calls: seq<Call>, x: nat) returns (i: nat)
    requires Explained(db) && IssuedRun(db, ops, calls) && x in Exec(db, ops).causes && x !in db.causes
    ensures var db' := Exec(db, ops);
            Behind(ops, calls, i, x, db'.causes[x], HistoryOf(db', db'.causes[x].req.key))
    decreases |ops|
  {
    i := 0;
    if ops == [] {
    } else {
      var db1, db' := Apply(db, ops[0]), Exec(db, ops);
      var k := db'.causes[x].req.key;
      ExplainedStep(db, ops[0]);
      if x in db1.causes {
        RunKeepsCause(db1, ops[1..], x);
        StepCauses(db, ops[0], x);
        RunHistoryGrows(db, ops, k);
        UpsertWroteFor(db, ops[0], calls[0], HistoryOf(db', k));
      } else {
        i := CallBehindCause(db1, ops[1..], calls[1..], x);
        i := i + 1;
      }
    }
  }

  /** `call` is an update that holds a version of an earlier uid than row `n`, and had read an
      undeleted row. */
  ghost predicate HoldsEarlierUid(call: Call, h: seq<Row>, n: nat)
    requires 0 < n < |h|
  {
    && call.UpdateCall? && call.observed <= call.read < n
    && h[call.observed].uid != h[n].uid && h[call.observed].version == h[n - 1].version
    && h[call.read].deletion.None?
  }

  /** Row `n` clears the deletion its predecessor of the same uid carries. */
  predicate ClearedAt(h: seq<Row>, n: nat)
    requires 0 < n < |h|
  {
    h[n].uid == h[n - 1].uid && h[n - 1].deletion.Some? && h[n].deletion.None?
  }

  lemma ClearingCause(h: seq<Row>, n: nat, c: Cause, k: Key)
    requires Chained(h) && 0 < n < |h| && ClearedAt(h, n)
    requires Explains(c, k, h[n]) && FoundBefore(c.found, h, n)
    ensures c.found == Some(h[n - 1]) && !IsCreate(c.req) && c.req.expected == h[n - 1].version
    ensures !c.req.WriteStatus? && c.req.deletion.None?
  {
    VersionsCountUp(h, n - 1);
    assert Follows(h[..n], h[n]);
    assert h[..n][n - 1] == h[n - 1];
  }

  /** A history holds no row twice. */
  lemma SamePosition(h: seq<Row>, a: nat, b: nat)
    requires Chained(h) && a < |h| && b < |h| && h[a] == h[b]
    ensures a == b
  {
    if a <= b {
      SameUidContiguous(h, a, b);
    } else {
      SameUidContiguous(h, b, a);
    }
  }

  /** Of the client's calls only an update issues a versioned write without a deletion time
      that is no status write. */
  lemma OnlyUpdatesOmitDeletion(h: seq<Row>, k: Key, call: Call)
    requires SawHistory(call, h)
    ensures var req := RequestOf(k, call, h);
            !req.WriteStatus? && !IsCreate(req) && req.deletion.None? ==>
              && call.UpdateCall? && h[call.read].deletion.None? && req.expected == h[call.observed].version
  {
  }

  lemma ClearingCall(h: seq<Row>, n: nat, c: Cause, call: Call, m: nat)
    requires Chained(h) && 0 < n < |h| && ClearedAt(h, n) && WroteFor(call, c, h, m)
    requires c.found == Some(h[n - 1]) && !IsCreate(c.req) && c.req.expected == h[n - 1].version
    requires !c.req.WriteStatus? && c.req.deletion.None?
    ensures HoldsEarlierUid(call, h, n)
  {
    SamePosition(h, m - 1, n - 1);
    OnlyUpdatesOmitDeletion(h[..n], c.req.key, call);
    assert h[..n][call.read] == h[call.read] && h[..n][call.observed] == h[call.observed];
    PrefixChained(h, n);
    if h[call.observed].uid == h[n].uid {
      UpdateReadWhatItReplaces(h[..n], call.observed, call.read);
    }
  }

  lemma PrefixChained(h: seq<Row>, n: nat)
    requires Chained(h) && n <= |h|
    ensures Chained(h[..n])
  {
    forall j | 0 <= j < n
      ensures Follows(h[..n][..j], h[..n][j])
    {
      assert h[..n][..j] == h[..j];
    }
  }

  /** In every run of client calls, whatever their callers hold: a deletion is cleared only by
      an update that holds a version of an earlier uid and had read an undeleted row. */
  lemma OnlyStaleUpdatesClear(ops: seq<DbOp>, calls: seq<Call>, k: Key, n: nat) returns (i: nat)
    requires IssuedRun(Empty(), ops, calls) && 0 < n < |HistoryOf(Exec(Empty(), ops), k)|
    requires ClearedAt(HistoryOf(Exec(Empty(), ops), k), n)
    ensures i < |ops| && i < |calls| && ops[i].Upserting?
    ensures ops[i].xid == HistoryOf(Exec(Empty(), ops), k)[n].stamp
    ensures HoldsEarlierUid(calls[i], HistoryOf(Exec(Empty(), ops), k), n)
  {
    EmptyRecorded();
    ExplainedRun(Empty(), ops);
    var db := Exec(Empty(), ops);
    var h := HistoryOf(db, k);
    assert ExplainedAt(db, k, n);
    var c := db.causes[h[n].stamp];
    ClearingCause(h, n, c, k);
    i := CallBehindCause(Empty(), ops, calls, h[n].stamp);
    var m: nat :| WroteFor(calls[i], c, h, m);
    ClearingCall(h, n, c, calls[i], m);
  }
}
