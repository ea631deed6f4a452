/** The writing side as code: one write through the writer, and one compaction. */
module WriterSession {
  import opened Basics
  import opened Rows
  import opened Database

  datatype WriteResult =
    | Written(txid: nat, version: int, uid: nat)
    | Unchanged(version: int, uid: nat)
    | Failed(verdict: Verdict)

  /** The write takes the next id, and once `others` have run it gets the lock on `k`. */
  ghost predicate Granted(db: Db, k: Key, others: seq<DbOp>, after: Db) {
    && Legal(db, [Begin] + others) && Exec(db, [Begin] + others) == after
    && db.next in after.open && after.open[db.next].Idle? && Unlocked(after, k)
  }

  /** The whole run: `earlier` until `mid`, the id, `others`, the upsert and the commit. */
  function WriteRun(earlier: seq<DbOp>, mid: Db, req: Request, uid: nat, now: int, others: seq<DbOp>): seq<DbOp> {
    earlier + ([Begin] + others + [Upserting(mid.next, req, uid, now), Commit(mid.next)])
  }

  class Writer {
    var db: Db

    constructor (db: Db)
      ensures this.db == db
    {
      this.db := db;
    }

    /** Suppression check, transaction id, upsert, commit.  Other transactions go on all the
        while: `earlier` is what they do between the check and the id, leaving `mid`, and
        `others` what they do until the row's lock is granted, leaving `after`.  The table
        moves exactly as the protocol's steps move it, or not at all. */
    method ExecWrite(req: Request, uid: nat, now: int,
                     ghost earlier: seq<DbOp>, mid: Db, ghost others: seq<DbOp>, after: Db) returns (r: WriteResult)
      requires Consistent(db) && Legal(db, earlier) && Exec(db, earlier) == mid
      requires Granted(mid, req.key, others, after)
      requires uid !in after.owner && MetadataFromClient(req)
      modifies this
      ensures Consistent(db)
      ensures r.Unchanged? <==>
                && (if req.Write? then req.status.Some? else req.expected != 0)
                && !req.force && req.key in old(db).rows && Carries(old(db).rows[req.key], req)
      ensures r.Unchanged? ==>
                && db == old(db) && Enabled(db, Suppress(req))
                && r == Unchanged(db.rows[req.key].version, db.rows[req.key].uid)
      ensures r.Written? ==>
                && Legal(old(db), WriteRun(earlier, mid, req, uid, now, others))
                && db == Exec(old(db), WriteRun(earlier, mid, req, uid, now, others))
                && req.key in db.rows
                && r == Written(mid.next, db.rows[req.key].version, db.rows[req.key].uid)
                && db.rows[req.key].stamp == mid.next
                && (Carries(db.rows[req.key], req) <==> !(IsCreate(req) && req.key in after.rows && req.deletion.Some?))
      ensures r.Failed? ==>
                if r.verdict.VersionRequired? then db == old(db) && !req.Write? && req.expected == 0
                else && !r.verdict.Put? && db == Finish(after, mid.next)
                     && r.verdict == Upsert(Lookup(after, req.key), req, mid.next, uid, now)
    {
      SuppressedIff(Lookup(db, req.key), req);
      if !req.Write? && req.expected == 0 {
        return Failed(VersionRequired);
      }
      if !req.force && req.key in db.rows && ContentEqual(db.rows[req.key], req) {
        var row := db.rows[req.key];
        return Unchanged(row.version, row.uid);
      }
      var x := mid.next;
      db := after;
      ConsistentRun(old(db), earlier);
      ConsistentRun(mid, [Begin] + others);
      var verdict := PutRow(x, req, uid, now);
      if !verdict.Put? {
        return Failed(verdict);
      }
      WholeRun(old(db), earlier, mid, req, uid, now, others, after);
      SuccessCarriesRequestIff(Lookup(after, req.key), req, x, uid, now);
      r := Written(x, verdict.row.version, verdict.row.uid);
    }

    /** Run the upsert under id `x`, commit or give up. */
    method PutRow(x: nat, req: Request, uid: nat, now: int) returns (verdict: Verdict)
      requires Consistent(db) && Enabled(db, Upserting(x, req, uid, now))
      modifies this
      ensures Consistent(db)
      ensures verdict == Upsert(old(Lookup(db, req.key)), req, x, uid, now)
      ensures verdict.Put? ==>
                && Legal(old(db), [Upserting(x, req, uid, now), Commit(x)])
                && db == Exec(old(db), [Upserting(x, req, uid, now), Commit(x)])
                && Lookup(db, req.key) == Some(verdict.row) && verdict.row.stamp == x
      ensures !verdict.Put? ==> db == Finish(old(db), x)
    {
      ghost var write := Upserting(x, req, uid, now);
      ConsistentStep(db, write);
      verdict := Upsert(Lookup(db, req.key), req, x, uid, now);
      if verdict.Put? {
        UpsertStamps(db, req, x, uid, now);
        TwoSteps(db, write, Commit(x));
        ConsistentStep(Apply(db, write), Commit(x));
        var row := verdict.row;
        db := db.(open := db.open - {x},
                  rows := db.rows[req.key := row],
                  history := db.history[req.key := HistoryOf(db, req.key) + [row]],
                  owner := db.owner[row.uid := req.key],
                  causes := db.causes[x := Cause(req, Lookup(db, req.key), now)]);
        assert db == Apply(Apply(old(db), write), Commit(x));
      } else {
        db := db.(open := db.open - {x});
      }
    }
  }

  lemma WholeRun(db: Db, earlier: seq<DbOp>, mid: Db, req: Request, uid: nat, now: int, others: seq<DbOp>, after: Db)
    requires Legal(db, earlier) && Exec(db, earlier) == mid && Granted(mid, req.key, others, after)
    requires Legal(after, [Upserting(mid.next, req, uid, now), Commit(mid.next)])
    ensures Legal(db, WriteRun(earlier, mid, req, uid, now, others))
    ensures Exec(db, WriteRun(earlier, mid, req, uid, now, others))
            == Exec(after, [Upserting(mid.next, req, uid, now), Commit(mid.next)])
  {
    var end := [Upserting(mid.next, req, uid, now), Commit(mid.next)];
    ExecConcat(mid, [Begin] + others, end);
    ExecConcat(db, earlier, [Begin] + others + end);
  }

  lemma {:induction false} RaiseAppends(horizon: map<string, nat>, rows: map<Key, Row>, keys: seq<Key>, k: Key)
    requires k in rows && forall j :: j in keys ==> j in rows
    ensures var h := Raise(horizon, rows, keys);
            Raise(horizon, rows, keys + [k]) == h[k.gvk := Max(HorizonOf(h, k.gvk), rows[k].stamp)]
    decreases |keys|
  {
    if keys == [] {
      assert keys + [k] == [k] && [k][1..] == [];
    } else {
      var j := keys[0];
      assert (keys + [k])[0] == j && (keys + [k])[1..] == keys[1..] + [k];
      RaiseAppends(horizon[j.gvk := Max(HorizonOf(horizon, j.gvk), rows[j].stamp)], rows, keys[1..], k);
    }
  }

  class Compactor {
    var db: Db

    constructor (db: Db)
      ensures this.db == db
    {
      this.db := db;
    }

    /** The rows the statement deletes, out of those its snapshot showed. */
    method DeleteOld(keys: seq<Key>, cutoff: int) returns (removed: seq<Key>)
      requires forall k :: k in keys ==> k in db.rows
      requires forall i, j :: 0 <= i < j < |keys| ==> keys[i] != keys[j]
      modifies this
      ensures forall k :: k in removed <==> k in keys && OldTombstone(old(db).rows[k], cutoff)
      ensures db == old(db).(rows := old(db).rows - (set k | k in removed))
    {
      removed := [];
      for n := 0 to |keys|
        invariant forall k :: k in removed <==> k in keys[..n] && Compactable(old(db).rows[k], cutoff)
        invariant db == old(db).(rows := old(db).rows - (set k | k in removed))
      {
        var k := keys[n];
        assert k in keys && keys[..n + 1] == keys[..n] + [k];
        assert k !in keys[..n];
        if Compactable(db.rows[k], cutoff) {
          db := db.(rows := db.rows - {k});
          removed := removed + [k];
        }
      }
      assert keys[..|keys|] == keys;
      forall k | k in keys
        ensures Compactable(old(db).rows[k], cutoff) <==> OldTombstone(old(db).rows[k], cutoff)
      {
        CompactableIff(old(db).rows[k], cutoff);
      }
    }

    /** Raise each group's horizon to the largest deleted stamp. */
    method RaiseHorizon(before: map<Key, Row>, removed: seq<Key>)
      requires forall k :: k in removed ==> k in before
      modifies this
      ensures db == old(db).(horizon := Raise(old(db).horizon, before, removed))
    {
      for n := 0 to |removed|
        invariant forall k :: k in removed[..n] ==> k in before
        invariant db == old(db).(horizon := Raise(old(db).horizon, before, removed[..n]))
      {
        var k := removed[n];
        assert removed[..n + 1] == removed[..n] + [k];
        RaiseAppends(old(db).horizon, before, removed[..n], k);
        db := db.(horizon := db.horizon[k.gvk := Max(HorizonOf(db.horizon, k.gvk), before[k].stamp)]);
      }
      assert removed[..|removed|] == removed;
    }

    /** The compaction statement under id `x`: of the rows its snapshot showed, remove every
        tombstone older than the cutoff and raise the horizons with them.  The table moves as
        the protocol's compaction moves it; rows that are live, dying or young stay. */
    method Compact(x: nat, keys: seq<Key>, cutoff: int) returns (deleted: nat, removed: seq<Key>)
      requires Consistent(db) && x in db.open && db.open[x].Idle?
      requires forall k :: k in keys ==> k in db.rows && (Compactable(db.rows[k], cutoff) ==> Unlocked(db, k))
      requires forall i, j :: 0 <= i < j < |keys| ==> keys[i] != keys[j]
      modifies this
      ensures Consistent(db) && deleted == |removed|
      ensures forall k :: k in removed <==> k in keys && OldTombstone(old(db).rows[k], cutoff)
      ensures Legal(old(db), [Database.Compact(x, removed, cutoff), Commit(x)])
      ensures db == Exec(old(db), [Database.Compact(x, removed, cutoff), Commit(x)])
      ensures forall k :: k in removed ==> k !in db.rows && old(db).rows[k].stamp <= HorizonOf(db.horizon, k.gvk)
    {
      ghost var db0 := db;
      var before := db.rows;
      removed := DeleteOld(keys, cutoff);
      RaiseHorizon(before, removed);
      db := db.(open := db.open - {x},
                compacted := db.compacted + (set k | k in removed :: (k.gvk, before[k].stamp)));
      deleted := |removed|;
      forall k | k in removed
        ensures Compactable(db0.rows[k], cutoff)
      {
        CompactableIff(db0.rows[k], cutoff);
      }
      CompactionSteps(db0, x, removed, cutoff);
      assert db == Compacted(db0, x, removed);
      RaiseIsLeastCover(db0.horizon, db0.rows, removed);
    }
  }

  /** The table after a compaction removed `removed`. */
  function Compacted(db: Db, x: nat, removed: seq<Key>): Db
    requires forall k :: k in removed ==> k in db.rows
  {
    db.(open := db.open - {x},
        rows := db.rows - (set k | k in removed),
        horizon := Raise(db.horizon, db.rows, removed),
        compacted := db.compacted + (set k | k in removed :: (k.gvk, db.rows[k].stamp)))
  }

  lemma CompactionSteps(db: Db, x: nat, removed: seq<Key>, cutoff: int)
    requires Consistent(db) && Enabled(db, Database.Compact(x, removed, cutoff))
    ensures Legal(db, [Database.Compact(x, removed, cutoff), Commit(x)])
    ensures Exec(db, [Database.Compact(x, removed, cutoff), Commit(x)]) == Compacted(db, x, removed)
    ensures Consistent(Compacted(db, x, removed))
  {
    var op := Database.Compact(x, removed, cutoff);
    ConsistentStep(db, op);
    var mid := Apply(db, op);
    assert mid.open - {x} == db.open - {x};
    TwoSteps(db, op, Commit(x));
    ConsistentStep(mid, Commit(x));
  }
}
