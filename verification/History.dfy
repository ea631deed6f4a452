/** What every run of writers leaves in the committed history of a key.

    An incarnation of a key is the stretch of its history with one uid. */
module History {
  import opened Rows
  import opened Database

  /** `row` may follow `h`: the next version of the same incarnation, or version 1 of a
      new incarnation that follows a tombstone (or nothing). */
  ghost predicate Follows(h: seq<Row>, row: Row) {
    || (h != [] && row.uid == h[|h| - 1].uid && row.version == h[|h| - 1].version + 1)
    || (&& row.version == 1
        && (forall i :: 0 <= i < |h| ==> h[i].uid != row.uid)
        && (h != [] ==> IsTombstone(h[|h| - 1])))
  }

  ghost predicate Chained(h: seq<Row>) {
    forall n :: 0 <= n < |h| ==> Follows(h[..n], h[n])
  }

  /** The visible row is the last of its key's history; a key without a row was never
      written, or ended as a tombstone. */
  ghost predicate RowsAreLast(db: Db) {
    && (forall k :: k in db.rows ==>
          HistoryOf(db, k) != [] && HistoryOf(db, k)[|HistoryOf(db, k)| - 1] == db.rows[k])
    && (forall k :: k !in db.rows && HistoryOf(db, k) != [] ==>
          IsTombstone(HistoryOf(db, k)[|HistoryOf(db, k)| - 1]))
  }

  ghost predicate AllChained(db: Db) {
    && (forall k :: Chained(HistoryOf(db, k)))
    && (forall x :: x in db.open && db.open[x].Wrote? ==>
          Follows(HistoryOf(db, db.open[x].key), db.open[x].row))
  }

  /** Every uid belongs to one key. */
  ghost predicate UidsOwned(db: Db) {
    && (forall k, i :: 0 <= i < |HistoryOf(db, k)| ==>
          HistoryOf(db, k)[i].uid in db.owner && db.owner[HistoryOf(db, k)[i].uid] == k)
    && (forall x :: x in db.open && db.open[x].Wrote? ==>
          db.open[x].row.uid in db.owner && db.owner[db.open[x].row.uid] == db.open[x].key)
  }

  ghost predicate Recorded(db: Db) {
    Consistent(db) && RowsAreLast(db) && AllChained(db) && UidsOwned(db)
  }

  lemma EmptyRecorded()
    ensures Recorded(Empty()) && HorizonCovers(Empty())
  {
  }

  /** Whatever an upsert produces may follow the history it was computed from. */
  lemma UpsertFollows(db: Db, req: Request, x: nat, uid: nat, now: int)
    requires RowsAreLast(db) && UidsOwned(db) && uid !in db.owner
    ensures var v := Upsert(Lookup(db, req.key), req, x, uid, now);
            v.Put? ==> && Follows(HistoryOf(db, req.key), v.row)
                       && (v.row.uid == uid || (req.key in db.rows && v.row.uid == db.rows[req.key].uid))
  {
    var h, v := HistoryOf(db, req.key), Upsert(Lookup(db, req.key), req, x, uid, now);
    if v.Put? && IsCreate(req) {
      assert forall i :: 0 <= i < |h| ==> h[i].uid != uid;
    }
  }

  /** An uncommitted write keeps every history. */
  lemma UpsertKeepsHistory(db: Db, op: DbOp, k: Key)
    requires op.Upserting? && Enabled(db, op)
    ensures HistoryOf(Apply(db, op), k) == HistoryOf(db, k)
    ensures Apply(db, op).rows == db.rows && Apply(db, op).history == db.history
  {
  }

  lemma UpsertKeepsUids(db: Db, op: DbOp)
    requires RowsAreLast(db) && UidsOwned(db) && op.Upserting? && Enabled(db, op)
    ensures UidsOwned(Apply(db, op))
  {
    var db', k := Apply(db, op), op.req.key;
    var v := Upsert(Lookup(db, k), op.req, op.xid, op.uid, op.now);
    UpsertFollows(db, op.req, op.xid, op.uid, op.now);
    if v.Put? && v.row.uid != op.uid {
      var h := HistoryOf(db, k);
      assert h[|h| - 1].uid in db.owner && db.owner[h[|h| - 1].uid] == k;
    }
    assert forall u :: u in db.owner ==> u in db'.owner && db'.owner[u] == db.owner[u];
    forall j, i | 0 <= i < |HistoryOf(db', j)|
      ensures HistoryOf(db', j)[i].uid in db'.owner && db'.owner[HistoryOf(db', j)[i].uid] == j
    {
      UpsertKeepsHistory(db, op, j);
    }
  }

  lemma UpsertKeepsChains(db: Db, op: DbOp)
    requires RowsAreLast(db) && UidsOwned(db) && AllChained(db) && op.Upserting? && Enabled(db, op)
    ensures AllChained(Apply(db, op))
  {
    UpsertFollows(db, op.req, op.xid, op.uid, op.now);
    forall k
      ensures HistoryOf(Apply(db, op), k) == HistoryOf(db, k)
    {
      UpsertKeepsHistory(db, op, k);
    }
  }

  lemma UpsertRecorded(db: Db, op: DbOp)
    requires Recorded(db) && op.Upserting? && Enabled(db, op)
    ensures Recorded(Apply(db, op))
  {
    ConsistentStep(db, op);
    UpsertKeepsUids(db, op);
    UpsertKeepsChains(db, op);
    UpsertKeepsHistory(db, op, op.req.key);
    RowsStand(db, Apply(db, op));
  }

  lemma ChainExtends(h: seq<Row>, row: Row)
    requires Chained(h) && Follows(h, row)
    ensures Chained(h + [row])
  {
    var h' := h + [row];
    forall n | 0 <= n < |h'|
      ensures Follows(h'[..n], h'[n])
    {
      assert h'[..n] == if n < |h| then h[..n] else h;
    }
  }

  lemma WriteCommitChained(db: Db, x: nat)
    requires LocksOk(db) && AllChained(db) && x in db.open && db.open[x].Wrote?
    ensures AllChained(Apply(db, Commit(x)))
  {
    var db', k, row := Apply(db, Commit(x)), db.open[x].key, db.open[x].row;
    ChainExtends(HistoryOf(db, k), row);
    assert forall j :: HistoryOf(db', j) == if j == k then HistoryOf(db, k) + [row] else HistoryOf(db, j);
    assert Touches(db.open[x], k);
    forall y | y in db'.open && db'.open[y].Wrote?
      ensures Follows(HistoryOf(db', db'.open[y].key), db'.open[y].row)
    {
      assert !Touches(db.open[y], k);
    }
  }

  lemma WriteCommitUids(db: Db, x: nat)
    requires UidsOwned(db) && x in db.open && db.open[x].Wrote?
    ensures UidsOwned(Apply(db, Commit(x)))
  {
    var db', k, row := Apply(db, Commit(x)), db.open[x].key, db.open[x].row;
    assert forall j :: HistoryOf(db', j) == if j == k then HistoryOf(db, k) + [row] else HistoryOf(db, j);
    forall j, i | 0 <= i < |HistoryOf(db', j)|
      ensures HistoryOf(db', j)[i].uid in db.owner && db.owner[HistoryOf(db', j)[i].uid] == j
    {
      if i < |HistoryOf(db, j)| {
        assert HistoryOf(db', j)[i] == HistoryOf(db, j)[i];
      }
    }
  }

  lemma RowAppended(db: Db, db': Db, k: Key, row: Row)
    requires RowsAreLast(db) && db'.rows == db.rows[k := row]
    requires db'.history == db.history[k := HistoryOf(db, k) + [row]]
    ensures RowsAreLast(db')
  {
    assert HistoryOf(db', k) == HistoryOf(db, k) + [row];
    assert forall j :: j != k ==> HistoryOf(db', j) == HistoryOf(db, j);
  }

  lemma WriteCommitRecorded(db: Db, x: nat)
    requires Recorded(db) && x in db.open && db.open[x].Wrote?
    ensures Recorded(Apply(db, Commit(x)))
  {
    ConsistentStep(db, Commit(x));
    WriteCommitChained(db, x);
    WriteCommitUids(db, x);
    RowAppended(db, Apply(db, Commit(x)), db.open[x].key, db.open[x].row);
  }

  lemma CompactCommitRows(db: Db, x: nat)
    requires RowsAreLast(db) && LocksOk(db) && x in db.open && db.open[x].Compacting?
    requires Enabled(db, Commit(x))
    ensures RowsAreLast(Apply(db, Commit(x)))
  {
    var db', keys := Apply(db, Commit(x)), db.open[x].keys;
    assert db'.history == db.history && db'.rows == db.rows - (set k | k in keys);
    assert forall k :: HistoryOf(db', k) == HistoryOf(db, k);
    forall k | k !in db'.rows && HistoryOf(db', k) != []
      ensures IsTombstone(HistoryOf(db', k)[|HistoryOf(db', k)| - 1])
    {
      if k in db.rows {
        assert k in keys;
      }
    }
  }

  /** A step that writes no history and opens no write keeps the chains and the uids. */
  lemma ChainsStand(db: Db, db': Db)
    requires AllChained(db) && UidsOwned(db)
    requires db'.history == db.history && db'.owner == db.owner
    requires forall x :: x in db'.open && db'.open[x].Wrote? ==> x in db.open && db'.open[x] == db.open[x]
    ensures AllChained(db') && UidsOwned(db')
  {
    assert forall k :: HistoryOf(db', k) == HistoryOf(db, k);
  }

  lemma RowsStand(db: Db, db': Db)
    requires RowsAreLast(db) && db'.history == db.history && db'.rows == db.rows
    ensures RowsAreLast(db')
  {
    assert forall k :: HistoryOf(db', k) == HistoryOf(db, k);
  }

  /** Histories only grow. */
  lemma HistoryGrows(db: Db, op: DbOp, k: Key)
    requires Enabled(db, op)
    ensures HistoryOf(db, k) <= HistoryOf(Apply(db, op), k)
  {
  }

  lemma RecordedStep(db: Db, op: DbOp)
    requires Recorded(db) && Enabled(db, op)
    ensures Recorded(Apply(db, op))
  {
    if op.Upserting? {
      UpsertRecorded(db, op);
    } else if op.Commit? && db.open[op.xid].Wrote? {
      WriteCommitRecorded(db, op.xid);
    } else {
      ConsistentStep(db, op);
      ChainsStand(db, Apply(db, op));
      if op.Commit? && db.open[op.xid].Compacting? {
        CompactCommitRows(db, op.xid);
      } else {
        RowsStand(db, Apply(db, op));
      }
    }
  }

  lemma {:induction false} RecordedRun(db: Db, ops: seq<DbOp>)
    requires Recorded(db) && Legal(db, ops)
    ensures Recorded(Exec(db, ops))
    decreases |ops|
  {
    if ops == [] {
    } else {
      RecordedStep(db, ops[0]);
      RecordedRun(Apply(db, ops[0]), ops[1..]);
    }
  }

  // ---- No lost update ----

  /** Two versions of one incarnation lie as far apart as their numbers say, with
      nothing of another incarnation in between. */
  lemma {:induction false} SameUidContiguous(h: seq<Row>, i: nat, j: nat)
    requires Chained(h) && i <= j < |h| && h[i].uid == h[j].uid
    ensures h[j].version == h[i].version + (j - i)
    ensures forall n :: i <= n <= j ==> h[n].uid == h[i].uid
    decreases j - i
  {
    if i == j {
    } else {
      assert Follows(h[..j], h[j]);
      assert h[..j][i].uid == h[j].uid;
      SameUidContiguous(h, i, j - 1);
    }
  }

  /** A row of version v ends a run of v consecutive commits, numbered 1 to v, and no
      earlier commit shares its uid. */
  ghost predicate CountsUpTo(h: seq<Row>, n: nat)
    requires n < |h|
  {
    && 1 <= h[n].version <= n + 1
    && (forall m :: n - h[n].version < m <= n ==>
          h[m].uid == h[n].uid && h[m].version == h[n].version - (n - m))
    && (forall m :: 0 <= m <= n - h[n].version ==> h[m].uid != h[n].uid)
  }

  lemma {:induction false} VersionsCountUp(h: seq<Row>, n: nat)
    requires Chained(h) && n < |h|
    ensures CountsUpTo(h, n)
    decreases n
  {
    assert Follows(h[..n], h[n]);
    assert forall m :: 0 <= m < n ==> h[..n][m] == h[m];
    if n > 0 && h[n].uid == h[n - 1].uid {
      VersionsCountUp(h, n - 1);
    }
  }

  /** In every run, for each uid and version at most one commit ever carries them — so
      at most one changing write with a given expected version wins. */
  lemma AtMostOneWinner(ops: seq<DbOp>, k1: Key, i: nat, k2: Key, j: nat)
    requires Legal(Empty(), ops)
    requires i < |HistoryOf(Exec(Empty(), ops), k1)| && j < |HistoryOf(Exec(Empty(), ops), k2)|
    requires HistoryOf(Exec(Empty(), ops), k1)[i].uid == HistoryOf(Exec(Empty(), ops), k2)[j].uid
    requires HistoryOf(Exec(Empty(), ops), k1)[i].version == HistoryOf(Exec(Empty(), ops), k2)[j].version
    ensures k1 == k2 && i == j
  {
    EmptyRecorded();
    RecordedRun(Empty(), ops);
    var db := Exec(Empty(), ops);
    assert db.owner[HistoryOf(db, k1)[i].uid] == k1;
    assert db.owner[HistoryOf(db, k2)[j].uid] == k2;
    if i <= j {
      SameUidContiguous(HistoryOf(db, k1), i, j);
    } else {
      SameUidContiguous(HistoryOf(db, k1), j, i);
    }
  }

  /** In every run each incarnation of each key is numbered 1, 2, 3, … without gaps. */
  lemma NoGaps(ops: seq<DbOp>, k: Key, n: nat)
    requires Legal(Empty(), ops)
    requires n < |HistoryOf(Exec(Empty(), ops), k)|
    ensures CountsUpTo(HistoryOf(Exec(Empty(), ops), k), n)
  {
    EmptyRecorded();
    RecordedRun(Empty(), ops);
    VersionsCountUp(HistoryOf(Exec(Empty(), ops), k), n);
  }

  /** A write that names a version the row no longer has is turned away by all three
      write paths, and its transaction leaves no trace in the table. */
  lemma StaleWriteRejected(db: Db, op: DbOp)
    requires Consistent(db) && Enabled(db, op) && op.Upserting?
    requires op.req.expected != 0
    requires op.req.key !in db.rows || db.rows[op.req.key].version != op.req.expected
    ensures Upsert(Lookup(db, op.req.key), op.req, op.xid, op.uid, op.now) == Conflict
    ensures Apply(db, op).rows == db.rows && Apply(db, op).history == db.history
    ensures Apply(db, op).open == db.open - {op.xid}
  {
  }
}
