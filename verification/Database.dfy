/** The table, its transactions and its compaction horizon as a state machine.

    A writer acquires a transaction id, runs one upsert (holding the row lock), and
    commits or rolls back; ids are handed out in order but transactions end in any
    order.  A compactor is a transaction too: it locks old tombstones, and its commit
    removes them and raises the horizon in one step.  Readers see committed rows only. */
module Database {
  import opened Basics
  import opened Tombstone
  import opened Rows

  datatype Txn = Idle | Wrote(key: Key, row: Row) | Compacting(keys: seq<Key>)

  /** Why a transaction wrote: its request, the committed row the upsert found, and when. */
  datatype Cause = Cause(req: Request, found: Option<Row>, now: int)

  /** `history` (every row version ever committed, per key, in commit order), `owner`
      (the key of every uid ever issued), `compacted` (group and stamp of every row ever
      removed) and `causes` (per transaction that wrote a row) record the past; no
      operation depends on them except that a fresh uid is one without an owner. */
  datatype Db = Db(
    next: nat,
    open: map<nat, Txn>,
    rows: map<Key, Row>,
    horizon: map<string, nat>,
    history: map<Key, seq<Row>>,
    owner: map<nat, Key>,
    compacted: set<(string, nat)>,
    causes: map<nat, Cause>)

  /** `Suppress` is a write whose content check finds nothing to change: it commits
      without ever taking an id. */
  datatype DbOp =
    | Suppress(req: Request)
    | Begin
    | Upserting(xid: nat, req: Request, uid: nat, now: int)
    | Compact(xid: nat, keys: seq<Key>, cutoff: int)
    | Commit(xid: nat)
    | Abort(xid: nat)

  const FIRST_XID: nat := 3

  function Empty(): Db {
    Db(FIRST_XID, map[], map[], map[], map[], map[], {}, map[])
  }

  predicate Touches(t: Txn, k: Key) {
    (t.Wrote? && t.key == k) || (t.Compacting? && k in t.keys)
  }

  /** No open transaction holds the lock on `k`. */
  ghost predicate Unlocked(db: Db, k: Key) {
    forall x :: x in db.open ==> !Touches(db.open[x], k)
  }

  function Lookup(db: Db, k: Key): Option<Row> {
    if k in db.rows then Some(db.rows[k]) else None
  }

  function HistoryOf(db: Db, k: Key): seq<Row> {
    if k in db.history then db.history[k] else []
  }

  /** A group nobody compacted has no horizon row; no real id is below 1. */
  function HorizonOf(horizon: map<string, nat>, gvk: string): nat {
    if gvk in horizon then horizon[gvk] else 0
  }

  /** Raise the horizon of each removed row's group to that row's stamp, never lowering it. */
  function Raise(horizon: map<string, nat>, rows: map<Key, Row>, keys: seq<Key>): map<string, nat>
    requires forall k :: k in keys ==> k in rows
    decreases |keys|
  {
    if keys == [] then horizon
    else
      var k := keys[0];
      Raise(horizon[k.gvk := Max(HorizonOf(horizon, k.gvk), rows[k].stamp)], rows, keys[1..])
  }

  /** `pg_snapshot_xmin`: the least id still open, or the next id to be issued. */
  function Xmin(db: Db): (x: nat)
    requires forall y :: y in db.open ==> y < db.next
    ensures x <= db.next
    ensures x == db.next || x in db.open
    ensures forall y :: y in db.open ==> x <= y
  {
    LeastOpen(db, 0)
  }

  function LeastOpen(db: Db, from: nat): (x: nat)
    requires from <= db.next
    requires forall y :: y in db.open ==> y < db.next
    ensures from <= x <= db.next
    ensures x == db.next || x in db.open
    ensures forall y :: y in db.open && from <= y ==> x <= y
    decreases db.next - from
  {
    if from == db.next || from in db.open then from else LeastOpen(db, from + 1)
  }

  predicate MetadataFromClient(req: Request) {
    !req.WriteStatus? ==> ClientMade(req.metadata)
  }

  ghost predicate Enabled(db: Db, op: DbOp) {
    match op
    case Suppress(req) => (req.Write? || req.expected != 0) && Suppressed(Lookup(db, req.key), req)
    case Begin => true
    case Upserting(x, req, uid, now) =>
      && x in db.open && db.open[x].Idle?
      && Unlocked(db, req.key)
      && uid !in db.owner
      && MetadataFromClient(req)
    case Compact(x, keys, cutoff) =>
      && x in db.open && db.open[x].Idle?
      && forall k :: k in keys ==> k in db.rows && Compactable(db.rows[k], cutoff) && Unlocked(db, k)
    case Commit(x) =>
      && x in db.open
      && (db.open[x].Compacting? ==> forall k :: k in db.open[x].keys ==> k in db.rows)
    case Abort(x) => x in db.open
  }

  function Finish(db: Db, x: nat): Db { db.(open := db.open - {x}) }

  ghost function Apply(db: Db, op: DbOp): Db
    requires Enabled(db, op)
  {
    match op
    case Suppress(req) => db
    case Begin => db.(next := db.next + 1, open := db.open[db.next := Idle])
    case Upserting(x, req, uid, now) =>
      (match Upsert(Lookup(db, req.key), req, x, uid, now)
       case Put(row) => db.(open := db.open[x := Wrote(req.key, row)],
                            owner := db.owner[row.uid := req.key],
                            causes := db.causes[x := Cause(req, Lookup(db, req.key), now)])
       case _ => Finish(db, x))
    case Compact(x, keys, cutoff) => db.(open := db.open[x := Compacting(keys)])
    case Commit(x) =>
      (match db.open[x]
       case Idle => Finish(db, x)
       case Wrote(k, row) =>
         Finish(db, x).(rows := db.rows[k := row],
                        history := db.history[k := HistoryOf(db, k) + [row]])
       case Compacting(keys) =>
         Finish(db, x).(rows := db.rows - (set k | k in keys),
                        horizon := Raise(db.horizon, db.rows, keys),
                        compacted := db.compacted + (set k | k in keys :: (k.gvk, db.rows[k].stamp))))
    case Abort(x) => Finish(db, x)
  }

  /** Open ids are below the next one, and a pending row carries its writer's id. */
  ghost predicate IdsOk(db: Db) {
    && 1 <= db.next
    && (forall x :: x in db.open ==> 1 <= x < db.next)
    && (forall x :: x in db.open && db.open[x].Wrote? ==>
          db.open[x].row.stamp == x && ClientMade(db.open[x].row.metadata))
  }

  /** Row locks are exclusive, and a row locked for removal stays the tombstone it was. */
  ghost predicate LocksOk(db: Db) {
    && (forall x, k :: x in db.open && db.open[x].Compacting? && k in db.open[x].keys ==>
          k in db.rows && IsTombstone(db.rows[k]))
    && (forall x, y, k :: x in db.open && y in db.open && x != y && Touches(db.open[x], k) ==>
          !Touches(db.open[y], k))
  }

  /** Visible rows are stamped by finished transactions. */
  ghost predicate RowsOk(db: Db) {
    forall k :: k in db.rows ==>
      && 1 <= db.rows[k].stamp < db.next && db.rows[k].stamp !in db.open
      && ClientMade(db.rows[k].metadata)
  }

  ghost predicate Consistent(db: Db) {
    IdsOk(db) && LocksOk(db) && RowsOk(db)
  }

  /** An upsert that succeeds stamps the row with its own id and keeps client metadata. */
  lemma UpsertStamps(db: Db, req: Request, x: nat, uid: nat, now: int)
    requires Consistent(db) && MetadataFromClient(req)
    ensures var v := Upsert(Lookup(db, req.key), req, x, uid, now);
            v.Put? ==> v.row.stamp == x && ClientMade(v.row.metadata)
  {
  }

  lemma FinishConsistent(db: Db, x: nat)
    requires Consistent(db) && x in db.open
    ensures Consistent(Finish(db, x))
  {
  }

  lemma WriteCommitConsistent(db: Db, x: nat)
    requires Consistent(db) && x in db.open && db.open[x].Wrote?
    ensures Consistent(Apply(db, Commit(x)))
  {
    FinishConsistent(db, x);
    var db' := Apply(db, Commit(x));
    assert db'.open == Finish(db, x).open;
    assert IdsOk(db');
    assert Touches(db.open[x], db.open[x].key);
    assert LocksOk(db');
  }

  lemma CompactCommitConsistent(db: Db, x: nat)
    requires Consistent(db) && x in db.open && db.open[x].Compacting?
    requires Enabled(db, Commit(x))
    ensures Consistent(Apply(db, Commit(x)))
  {
    FinishConsistent(db, x);
    var db' := Apply(db, Commit(x));
    assert db'.open == Finish(db, x).open;
    forall y, k | y in db'.open && db'.open[y].Compacting? && k in db'.open[y].keys
      ensures k in db'.rows && IsTombstone(db'.rows[k])
    {
      assert Touches(db.open[y], k) && !Touches(db.open[x], k);
    }
    assert LocksOk(db');
  }

  lemma AcquireConsistent(db: Db, x: nat, t: Txn)
    requires Consistent(db) && x in db.open && db.open[x].Idle?
    requires t.Wrote? ==> t.row.stamp == x && ClientMade(t.row.metadata)
    requires t.Compacting? ==> forall k :: k in t.keys ==> k in db.rows && IsTombstone(db.rows[k])
    requires forall k :: Touches(t, k) ==> Unlocked(db, k)
    ensures Consistent(db.(open := db.open[x := t]))
  {
  }

  lemma UpsertConsistent(db: Db, x: nat, req: Request, uid: nat, now: int)
    requires Consistent(db) && Enabled(db, Upserting(x, req, uid, now))
    ensures Consistent(Apply(db, Upserting(x, req, uid, now)))
  {
    UpsertStamps(db, req, x, uid, now);
    match Upsert(Lookup(db, req.key), req, x, uid, now) {
      case Put(row) => AcquireConsistent(db, x, Wrote(req.key, row));
      case _ => FinishConsistent(db, x);
    }
  }

  lemma CommitConsistent(db: Db, x: nat)
    requires Consistent(db) && Enabled(db, Commit(x))
    ensures Consistent(Apply(db, Commit(x)))
  {
    match db.open[x]
    case Idle => FinishConsistent(db, x);
    case Wrote(_, _) => WriteCommitConsistent(db, x);
    case Compacting(_) => CompactCommitConsistent(db, x);
  }

  lemma ConsistentStep(db: Db, op: DbOp)
    requires Consistent(db) && Enabled(db, op)
    ensures Consistent(Apply(db, op))
  {
    match op
    case Suppress(req) =>
    case Begin =>
    case Upserting(x, req, uid, now) => UpsertConsistent(db, x, req, uid, now);
    case Compact(x, keys, cutoff) => AcquireConsistent(db, x, Compacting(keys));
    case Commit(x) => CommitConsistent(db, x);
    case Abort(x) => FinishConsistent(db, x);
  }

  lemma StillOpen(db: Db, op: DbOp)
    requires Enabled(db, op)
    ensures db.next <= Apply(db, op).next
    ensures forall y :: y in Apply(db, op).open ==> y in db.open || y == db.next
  {
    match op
    case Suppress(_) =>
    case Begin =>
    case Upserting(_, _, _, _) =>
    case Compact(_, _, _) =>
    case Commit(_) =>
    case Abort(_) =>
  }

  /** Transaction ids are consumed in order and never handed out again. */
  lemma XminMonotone(db: Db, op: DbOp)
    requires Consistent(db) && Enabled(db, op)
    ensures Consistent(Apply(db, op))
    ensures Xmin(db) <= Xmin(Apply(db, op))
  {
    ConsistentStep(db, op);
    StillOpen(db, op);
  }

  /** A version is covered by a snapshot when every id up to it had finished there. */
  ghost predicate AllFinished(db: Db, w: nat) {
    forall x: nat :: x <= w ==> Finished(db, x)
  }

  predicate Finished(db: Db, x: nat) { x < db.next && x !in db.open }

  lemma AllFinishedIffBelowXmin(db: Db, w: nat)
    requires Consistent(db)
    ensures AllFinished(db, w) <==> w < Xmin(db)
  {
    assert !Finished(db, Xmin(db));
  }

  // ---- The compaction horizon ----

  /** The new horizon covers every removed stamp, never falls, and is no higher than
      the old one and the removed stamps make it. */
  lemma {:induction false} RaiseIsLeastCover(horizon: map<string, nat>, rows: map<Key, Row>, keys: seq<Key>)
    requires forall k :: k in keys ==> k in rows
    ensures var h := Raise(horizon, rows, keys);
            && (forall g :: g in horizon ==> g in h)
            && (forall g :: HorizonOf(horizon, g) <= HorizonOf(h, g))
            && (forall k :: k in keys ==> k.gvk in h && rows[k].stamp <= HorizonOf(h, k.gvk))
            && (forall g :: HorizonOf(h, g) == HorizonOf(horizon, g)
                            || exists k :: k in keys && k.gvk == g && rows[k].stamp == HorizonOf(h, g))
    decreases |keys|
  {
    if keys == [] {
    } else {
      var k := keys[0];
      var mid := horizon[k.gvk := Max(HorizonOf(horizon, k.gvk), rows[k].stamp)];
      RaiseIsLeastCover(mid, rows, keys[1..]);
      var h := Raise(mid, rows, keys[1..]);
      forall g
        ensures HorizonOf(h, g) == HorizonOf(horizon, g)
                || exists j :: j in keys && j.gvk == g && rows[j].stamp == HorizonOf(h, g)
      {
        if HorizonOf(h, g) == HorizonOf(mid, g) {
          if g == k.gvk && HorizonOf(mid, g) != HorizonOf(horizon, g) {
            assert k in keys && k.gvk == g && rows[k].stamp == HorizonOf(h, g);
          }
        } else {
          var j :| j in keys[1..] && j.gvk == g && rows[j].stamp == HorizonOf(h, g);
          assert j in keys;
        }
      }
      assert forall j :: j in keys ==> j == k || j in keys[1..];
      assert HorizonOf(horizon, k.gvk) <= HorizonOf(mid, k.gvk);
    }
  }

  /** Every stamp ever compacted is at or below its group's horizon. */
  ghost predicate HorizonCovers(db: Db) {
    forall c :: c in db.compacted ==> c.1 <= HorizonOf(db.horizon, c.0)
  }

  /** A step that is no compaction's commit leaves the horizon alone and removes no row. */
  lemma HorizonStays(db: Db, op: DbOp)
    requires Enabled(db, op) && !(op.Commit? && db.open[op.xid].Compacting?)
    ensures var db' := Apply(db, op);
            db'.horizon == db.horizon && db'.compacted == db.compacted && db.rows.Keys <= db'.rows.Keys
  {
    match op
    case Suppress(_) =>
    case Begin =>
    case Upserting(_, _, _, _) =>
    case Compact(_, _, _) =>
    case Commit(x) =>
      if db.open[x].Wrote? {
        assert db.rows[db.open[x].key := db.open[x].row].Keys == db.rows.Keys + {db.open[x].key};
      }
    case Abort(_) =>
  }

  /** Every horizon is the stamp of a row that was compacted. */
  ghost predicate HorizonTight(db: Db) {
    forall g :: g in db.horizon ==> (g, db.horizon[g]) in db.compacted
  }

  /** Only the groups of removed rows gain a horizon. */
  lemma {:induction false} RaiseAddsOnly(horizon: map<string, nat>, rows: map<Key, Row>, keys: seq<Key>, g: string)
    requires (forall k :: k in keys ==> k in rows) && g in Raise(horizon, rows, keys) && g !in horizon
    ensures exists k :: k in keys && k.gvk == g
    decreases |keys|
  {
    if keys == [] {
    } else if keys[0].gvk == g {
      assert keys[0] in keys;
    } else {
      var k := keys[0];
      RaiseAddsOnly(horizon[k.gvk := Max(HorizonOf(horizon, k.gvk), rows[k].stamp)], rows, keys[1..], g);
      var j :| j in keys[1..] && j.gvk == g;
      assert j in keys;
    }
  }

  lemma RaiseTight(db: Db, x: nat)
    requires RowsOk(db) && HorizonTight(db) && Enabled(db, Commit(x)) && db.open[x].Compacting?
    ensures HorizonTight(Apply(db, Commit(x)))
  {
    var keys, h := db.open[x].keys, Raise(db.horizon, db.rows, db.open[x].keys);
    RaiseIsLeastCover(db.horizon, db.rows, keys);
    forall g | g in h
      ensures (g, h[g]) in Apply(db, Commit(x)).compacted
    {
      if exists k :: k in keys && k.gvk == g && db.rows[k].stamp == HorizonOf(h, g) {
        var k :| k in keys && k.gvk == g && db.rows[k].stamp == HorizonOf(h, g);
        assert (k.gvk, db.rows[k].stamp) in Apply(db, Commit(x)).compacted;
      } else {
        assert HorizonOf(h, g) == HorizonOf(db.horizon, g);
        if g !in db.horizon {
          RaiseAddsOnly(db.horizon, db.rows, keys, g);
        }
      }
    }
  }

  /** A group is compacted past `mark` exactly when one of its rows stamped above was removed. */
  ghost predicate CompactedAbove(db: Db, gvk: string, mark: nat) {
    exists c :: c in db.compacted && c.0 == gvk && mark < c.1
  }

  lemma HorizonAboveIff(db: Db, gvk: string, mark: nat)
    requires HorizonCovers(db) && HorizonTight(db)
    ensures gvk in db.horizon && mark < db.horizon[gvk] <==> CompactedAbove(db, gvk, mark)
  {
    if gvk in db.horizon && mark < db.horizon[gvk] {
      assert (gvk, db.horizon[gvk]) in db.compacted;
    }
  }

  lemma HorizonStep(db: Db, op: DbOp)
    requires Consistent(db) && HorizonCovers(db) && Enabled(db, op)
    ensures HorizonCovers(Apply(db, op)) && (HorizonTight(db) ==> HorizonTight(Apply(db, op)))
    ensures forall g :: HorizonOf(db.horizon, g) <= HorizonOf(Apply(db, op).horizon, g)
    ensures db.compacted <= Apply(db, op).compacted
    ensures forall k :: k in db.rows && k !in Apply(db, op).rows ==>
              (k.gvk, db.rows[k].stamp) in Apply(db, op).compacted
  {
    if op.Commit? && db.open[op.xid].Compacting? {
      RaiseIsLeastCover(db.horizon, db.rows, db.open[op.xid].keys);
      if HorizonTight(db) {
        RaiseTight(db, op.xid);
      }
    } else {
      HorizonStays(db, op);
    }
  }

  // ---- Runs ----

  ghost predicate Legal(db: Db, ops: seq<DbOp>)
    decreases |ops|
  {
    ops == [] || (Enabled(db, ops[0]) && Legal(Apply(db, ops[0]), ops[1..]))
  }

  ghost function Exec(db: Db, ops: seq<DbOp>): Db
    requires Legal(db, ops)
    decreases |ops|
  {
    if ops == [] then db else Exec(Apply(db, ops[0]), ops[1..])
  }

  lemma {:induction false} ExecConcat(db: Db, a: seq<DbOp>, b: seq<DbOp>)
    requires Legal(db, a) && Legal(Exec(db, a), b)
    ensures Legal(db, a + b) && Exec(db, a + b) == Exec(Exec(db, a), b)
    decreases |a|
  {
    if a == [] {
      assert a + b == b;
    } else {
      assert (a + b)[0] == a[0] && (a + b)[1..] == a[1..] + b;
      ExecConcat(Apply(db, a[0]), a[1..], b);
    }
  }

  /** The three steps of a write that nothing comes between. */
  function WriteSteps(db: Db, req: Request, uid: nat, now: int): seq<DbOp> {
    [Begin, Upserting(db.next, req, uid, now), Commit(db.next)]
  }

  /** The table after such a write committed `row`. */
  function Committed(db: Db, req: Request, row: Row, now: int): Db {
    var k := req.key;
    db.(next := db.next + 1,
        rows := db.rows[k := row],
        history := db.history[k := HistoryOf(db, k) + [row]],
        owner := db.owner[row.uid := k],
        causes := db.causes[db.next := Cause(req, Lookup(db, k), now)])
  }

  lemma StepThen(db: Db, op: DbOp, rest: seq<DbOp>)
    requires Enabled(db, op) && Legal(Apply(db, op), rest)
    ensures Legal(db, [op] + rest) && Exec(db, [op] + rest) == Exec(Apply(db, op), rest)
  {
    assert ([op] + rest)[0] == op && ([op] + rest)[1..] == rest;
  }

  lemma TwoSteps(db: Db, a: DbOp, b: DbOp)
    requires Enabled(db, a) && Enabled(Apply(db, a), b)
    ensures Legal(db, [a, b]) && Exec(db, [a, b]) == Apply(Apply(db, a), b)
  {
    StepThen(Apply(db, a), b, []);
    assert [b] + [] == [b];
    StepThen(db, a, [b]);
    assert [a] + [b] == [a, b];
  }

  lemma {:induction false} ConsistentRun(db: Db, ops: seq<DbOp>)
    requires Consistent(db) && Legal(db, ops)
    ensures Consistent(Exec(db, ops))
    decreases |ops|
  {
    if ops == [] {
    } else {
      ConsistentStep(db, ops[0]);
      ConsistentRun(Apply(db, ops[0]), ops[1..]);
    }
  }

  lemma AcquireAndUpsert(db: Db, req: Request, uid: nat, now: int, row: Row)
    requires db.next !in db.open && Unlocked(db, req.key) && uid !in db.owner && MetadataFromClient(req)
    requires Upsert(Lookup(db, req.key), req, db.next, uid, now) == Put(row)
    ensures Enabled(Apply(db, Begin), Upserting(db.next, req, uid, now))
    ensures Apply(Apply(db, Begin), Upserting(db.next, req, uid, now))
            == db.(next := db.next + 1, open := db.open[db.next := Wrote(req.key, row)],
                   owner := db.owner[row.uid := req.key],
                   causes := db.causes[db.next := Cause(req, Lookup(db, req.key), now)])
  {
    var db1 := Apply(db, Begin);
    assert Lookup(db1, req.key) == Lookup(db, req.key);
    assert db1.open[db.next := Wrote(req.key, row)] == db.open[db.next := Wrote(req.key, row)];
  }

  /** The commit of the row that id `x` wrote last of all. */
  lemma CommitOfNext(db: Db, req: Request, row: Row, now: int)
    requires db.next !in db.open
    ensures var db2 := db.(next := db.next + 1, open := db.open[db.next := Wrote(req.key, row)],
                           owner := db.owner[row.uid := req.key],
                           causes := db.causes[db.next := Cause(req, Lookup(db, req.key), now)]);
            Enabled(db2, Commit(db.next)) && Apply(db2, Commit(db.next)) == Committed(db, req, row, now)
  {
    assert db.open[db.next := Wrote(req.key, row)] - {db.next} == db.open;
  }

  lemma UninterruptedSteps(db: Db, req: Request, uid: nat, now: int, row: Row)
    requires db.next !in db.open && Unlocked(db, req.key) && uid !in db.owner && MetadataFromClient(req)
    requires Upsert(Lookup(db, req.key), req, db.next, uid, now) == Put(row)
    ensures Legal(db, WriteSteps(db, req, uid, now))
    ensures Exec(db, WriteSteps(db, req, uid, now)) == Committed(db, req, row, now)
  {
    AcquireAndUpsert(db, req, uid, now, row);
    CommitOfNext(db, req, row, now);
    var write, end := Upserting(db.next, req, uid, now), Commit(db.next);
    TwoSteps(Apply(db, Begin), write, end);
    StepThen(db, Begin, [write, end]);
    assert [Begin] + [write, end] == WriteSteps(db, req, uid, now);
  }

  /** With its row unlocked, the steps of a successful write take the table to `Committed`. */
  lemma WriteUninterrupted(db: Db, req: Request, uid: nat, now: int)
    requires Consistent(db) && Unlocked(db, req.key) && uid !in db.owner && MetadataFromClient(req)
    requires Upsert(Lookup(db, req.key), req, db.next, uid, now).Put?
    ensures Legal(db, WriteSteps(db, req, uid, now))
    ensures var db' := Committed(db, req, Upsert(Lookup(db, req.key), req, db.next, uid, now).row, now);
            Exec(db, WriteSteps(db, req, uid, now)) == db' && Consistent(db')
  {
    UninterruptedSteps(db, req, uid, now, Upsert(Lookup(db, req.key), req, db.next, uid, now).row);
    ConsistentRun(db, WriteSteps(db, req, uid, now));
  }

  /** In every state of every run the horizon covers all that was ever compacted, and
      it never falls on the way. */
  lemma {:induction false} HorizonNeverLags(db: Db, ops: seq<DbOp>)
    requires Consistent(db) && HorizonCovers(db) && Legal(db, ops)
    ensures Consistent(Exec(db, ops)) && HorizonCovers(Exec(db, ops))
    ensures HorizonTight(db) ==> HorizonTight(Exec(db, ops))
    ensures forall g :: HorizonOf(db.horizon, g) <= HorizonOf(Exec(db, ops).horizon, g)
    ensures db.compacted <= Exec(db, ops).compacted
    decreases |ops|
  {
    if ops == [] {
    } else {
      ConsistentStep(db, ops[0]);
      HorizonStep(db, ops[0]);
      HorizonNeverLags(Apply(db, ops[0]), ops[1..]);
    }
  }
}
