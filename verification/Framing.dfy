/** What every write of every run leaves behind: each committed row version is what one
    request made of the version before it, and a suppressed write leaves no trace. */
module Framing {
  import opened Basics
  import opened Tombstone
  import opened Rows
  import opened Database
  import opened History
  import opened Watch

  /** `row` is what the cause's request makes of the row it found. */
  predicate Explains(c: Cause, k: Key, row: Row) {
    c.req.key == k && Upsert(c.found, c.req, row.stamp, row.uid, c.now) == Put(row)
  }

  /** The row an upsert found is the one before in the history; it found none only
      before the first commit or once a tombstone was compacted. */
  predicate FoundBefore(found: Option<Row>, h: seq<Row>, n: nat)
    requires n <= |h|
  {
    if found.Some? then n > 0 && found.value == h[n - 1] else n == 0 || IsTombstone(h[n - 1])
  }

  ghost predicate ExplainedAt(db: Db, k: Key, n: nat)
    requires n < |HistoryOf(db, k)|
  {
    var h := HistoryOf(db, k);
    && h[n].stamp in db.causes
    && Explains(db.causes[h[n].stamp], k, h[n]) && FoundBefore(db.causes[h[n].stamp].found, h, n)
  }

  ghost predicate HistoryExplained(db: Db) {
    forall k, n: nat :: n < |HistoryOf(db, k)| ==> ExplainedAt(db, k, n)
  }

  /** A pending row was made from the row that is committed now. */
  ghost predicate PendingExplained(db: Db) {
    forall x :: x in db.open && db.open[x].Wrote? ==>
      && x in db.causes && Explains(db.causes[x], db.open[x].key, db.open[x].row)
      && db.causes[x].found == Lookup(db, db.open[x].key)
  }

  /** Only a transaction that wrote has a cause, and it writes once. */
  ghost predicate CausesClosed(db: Db) {
    forall x :: x in db.causes ==> x < db.next && (x in db.open ==> db.open[x].Wrote?)
  }

  ghost predicate Explained(db: Db) {
    Recorded(db) && HistoryExplained(db) && PendingExplained(db) && CausesClosed(db)
  }

  /** The id and uid of an upsert can be read off the row it made. */
  lemma UpsertExplains(found: Option<Row>, req: Request, x: nat, uid: nat, now: int)
    ensures var v := Upsert(found, req, x, uid, now);
            v.Put? ==> v.row.stamp == x && Explains(Cause(req, found, now), req.key, v.row)
  {
  }

  lemma UpsertKeepsExplained(db: Db, op: DbOp)
    requires HistoryExplained(db) && CausesClosed(db) && op.Upserting? && Enabled(db, op)
    ensures HistoryExplained(Apply(db, op))
  {
    var db' := Apply(db, op);
    assert op.xid !in db.causes;
    forall k, n: nat | n < |HistoryOf(db', k)|
      ensures ExplainedAt(db', k, n)
    {
      UpsertKeepsHistory(db, op, k);
      assert ExplainedAt(db, k, n);
    }
  }

  lemma UpsertPending(db: Db, op: DbOp)
    requires IdsOk(db) && PendingExplained(db) && CausesClosed(db) && op.Upserting? && Enabled(db, op)
    ensures PendingExplained(Apply(db, op)) && CausesClosed(Apply(db, op))
  {
    var db', found := Apply(db, op), Lookup(db, op.req.key);
    assert op.xid !in db.causes && db'.rows == db.rows;
    UpsertExplains(found, op.req, op.xid, op.uid, op.now);
    forall x | x in db'.open && db'.open[x].Wrote?
      ensures x in db'.causes && Explains(db'.causes[x], db'.open[x].key, db'.open[x].row)
      ensures db'.causes[x].found == Lookup(db', db'.open[x].key)
    {
      assert x == op.xid || db'.causes[x] == db.causes[x];
    }
  }

  lemma WriteCommitPending(db: Db, x: nat)
    requires LocksOk(db) && PendingExplained(db) && CausesClosed(db) && x in db.open && db.open[x].Wrote?
    ensures PendingExplained(Apply(db, Commit(x))) && CausesClosed(Apply(db, Commit(x)))
  {
    var db', k := Apply(db, Commit(x)), db.open[x].key;
    assert Touches(db.open[x], k);
    forall y | y in db'.open && db'.open[y].Wrote?
      ensures Lookup(db', db'.open[y].key) == Lookup(db, db.open[y].key)
    {
      assert !Touches(db.open[y], k);
    }
  }

  lemma WriteCommitHistory(db: Db, x: nat)
    requires IdsOk(db) && RowsAreLast(db) && HistoryExplained(db) && PendingExplained(db)
    requires x in db.open && db.open[x].Wrote?
    ensures HistoryExplained(Apply(db, Commit(x)))
  {
    var db', k, row := Apply(db, Commit(x)), db.open[x].key, db.open[x].row;
    assert HistoryOf(db', k) == HistoryOf(db, k) + [row];
    forall j, n: nat | n < |HistoryOf(db', j)|
      ensures ExplainedAt(db', j, n)
    {
      if j != k {
        assert HistoryOf(db', j) == HistoryOf(db, j);
        assert ExplainedAt(db, j, n);
      } else if n < |HistoryOf(db, k)| {
        assert ExplainedAt(db, k, n);
      }
    }
  }

  /** A step that commits no write and opens none keeps all explanations. */
  lemma ExplanationsStand(db: Db, db': Db)
    requires HistoryExplained(db) && PendingExplained(db) && CausesClosed(db)
    requires db'.history == db.history && db'.causes == db.causes && db.next <= db'.next
    requires forall x :: x in db'.open && (db'.open[x].Wrote? || x < db.next) ==> x in db.open
    requires forall x :: x in db'.open && x in db.open ==> db'.open[x] == db.open[x] || !db.open[x].Wrote?
    requires forall x :: x in db'.open && db'.open[x].Wrote? ==>
               db'.open[x] == db.open[x] && Lookup(db', db.open[x].key) == Lookup(db, db.open[x].key)
    ensures HistoryExplained(db') && PendingExplained(db') && CausesClosed(db')
  {
    forall k, n: nat | n < |HistoryOf(db', k)|
      ensures ExplainedAt(db', k, n)
    {
      assert ExplainedAt(db, k, n);
    }
  }

  lemma CompactCommitLookups(db: Db, x: nat)
    requires LocksOk(db) && x in db.open && db.open[x].Compacting? && Enabled(db, Commit(x))
    ensures var db' := Apply(db, Commit(x));
            forall y :: y in db'.open && db'.open[y].Wrote? ==>
              Lookup(db', db.open[y].key) == Lookup(db, db.open[y].key)
  {
    var db' := Apply(db, Commit(x));
    forall y | y in db'.open && db'.open[y].Wrote?
      ensures Lookup(db', db.open[y].key) == Lookup(db, db.open[y].key)
    {
      assert Touches(db.open[y], db.open[y].key) && !Touches(db.open[x], db.open[y].key);
    }
  }

  /** Steps other than upserts and commits of writes. */
  lemma QuietStepExplained(db: Db, op: DbOp)
    requires IdsOk(db) && LocksOk(db) && HistoryExplained(db) && PendingExplained(db) && CausesClosed(db)
    requires Enabled(db, op) && !op.Upserting? && !(op.Commit? && db.open[op.xid].Wrote?)
    ensures var db' := Apply(db, op); HistoryExplained(db') && PendingExplained(db') && CausesClosed(db')
  {
    if op.Commit? && db.open[op.xid].Compacting? {
      CompactCommitLookups(db, op.xid);
    } else {
      assert Apply(db, op).rows == db.rows;
    }
    ExplanationsStand(db, Apply(db, op));
  }

  lemma ExplainedStep(db: Db, op: DbOp)
    requires Explained(db) && Enabled(db, op)
    ensures Explained(Apply(db, op))
  {
    RecordedStep(db, op);
    if op.Upserting? {
      UpsertKeepsExplained(db, op);
      UpsertPending(db, op);
    } else if op.Commit? && db.open[op.xid].Wrote? {
      WriteCommitPending(db, op.xid);
      WriteCommitHistory(db, op.xid);
    } else {
      QuietStepExplained(db, op);
    }
  }

  lemma {:induction false} ExplainedRun(db: Db, ops: seq<DbOp>)
    requires Explained(db) && Legal(db, ops)
    ensures Explained(Exec(db, ops))
    decreases |ops|
  {
    if ops == [] {
    } else {
      ExplainedStep(db, ops[0]);
      ExplainedRun(Apply(db, ops[0]), ops[1..]);
    }
  }

  /** The run gave id `x` the cause's request, at its time. */
  ghost predicate Given(ops: seq<DbOp>, x: nat, c: Cause) {
    exists i :: 0 <= i < |ops| && ops[i].Upserting? && ops[i].xid == x && ops[i].req == c.req && ops[i].now == c.now
  }

  lemma GivenLater(ops: seq<DbOp>, x: nat, c: Cause)
    requires ops != [] && Given(ops[1..], x, c)
    ensures Given(ops, x, c)
  {
    var i :| 0 <= i < |ops[1..]| && ops[1..][i].Upserting? && ops[1..][i].xid == x
             && ops[1..][i].req == c.req && ops[1..][i].now == c.now;
    assert ops[i + 1] == ops[1..][i];
  }

  lemma StepCauses(db: Db, op: DbOp, x: nat)
    requires Enabled(db, op) && x in Apply(db, op).causes
    ensures || (x in db.causes && db.causes[x] == Apply(db, op).causes[x])
            || (op.Upserting? && op.xid == x && Apply(db, op).causes[x] == Cause(op.req, Lookup(db, op.req.key), op.now))
  {
  }

  /** The request recorded for an id is the one that id's upsert was given in the run. */
  lemma {:induction false} CausesFromRun(db: Db, ops: seq<DbOp>, x: nat)
    requires Legal(db, ops) && x in Exec(db, ops).causes
    ensures || (x in db.causes && db.causes[x] == Exec(db, ops).causes[x])
            || Given(ops, x, Exec(db, ops).causes[x])
    decreases |ops|
  {
    if ops == [] {
    } else {
      var db1 := Apply(db, ops[0]);
      CausesFromRun(db1, ops[1..], x);
      if Given(ops[1..], x, Exec(db1, ops[1..]).causes[x]) {
        GivenLater(ops, x, Exec(db1, ops[1..]).causes[x]);
      } else {
        StepCauses(db, ops[0], x);
      }
    }
  }

  /** How a committed row relates to its request and to the commit before it. */
  ghost predicate Framed(c: Cause, h: seq<Row>, n: nat)
    requires n < |h|
  {
    && (Carries(h[n], c.req) <==> !(IsCreate(c.req) && c.found.Some? && c.req.deletion.Some?))
    && h[n].updated == c.now
    && (if IsCreate(c.req) then
          h[n].version == 1 && h[n].created == c.now && (n > 0 ==> IsTombstone(h[n - 1]))
        else
          && n > 0 && Frames(h[n - 1], h[n], c.req)
          && h[n - 1].version == c.req.expected && h[n].version == c.req.expected + 1)
  }

  /** Framing over every run: each committed row version goes back to the request that
      its transaction was given in the run.  It holds what the request carries, and what
      the request does not carry is as in the commit before — whoever committed that, and
      whatever the writer had read.  So no status write ever changes spec, metadata or
      deletion between two commits, and no object write changes status. */
  lemma EveryCommitFrames(ops: seq<DbOp>, k: Key, n: nat)
    requires Legal(Empty(), ops) && n < |HistoryOf(Exec(Empty(), ops), k)|
    ensures var db := Exec(Empty(), ops);
            var h := HistoryOf(db, k);
            && h[n].stamp in db.causes && db.causes[h[n].stamp].req.key == k
            && Given(ops, h[n].stamp, db.causes[h[n].stamp])
            && Framed(db.causes[h[n].stamp], h, n)
  {
    EmptyRecorded();
    ExplainedRun(Empty(), ops);
    var db := Exec(Empty(), ops);
    var h := HistoryOf(db, k);
    assert ExplainedAt(db, k, n);
    CausesFromRun(Empty(), ops, h[n].stamp);
    var c := db.causes[h[n].stamp];
    SuccessCarriesRequestIff(c.found, c.req, h[n].stamp, h[n].uid, c.now);
    WriteTimes(c.found, c.req, h[n].stamp, h[n].uid, c.now);
  }

  /** In every run, a row of the table is hidden from List, from the client's read and from
      Get, revivable and compactable all at once, or none of these. */
  lemma EveryRowOneTombstone(ops: seq<DbOp>, k: Key, req: Request, xid: nat, uid: nat, now: int)
    requires Legal(Empty(), ops) && k in Exec(Empty(), ops).rows
    requires IsCreate(req) && req.status.Some?
    ensures var r := Exec(Empty(), ops).rows[k];
            && (!Listed(r) <==> !ReadCurrentFilter(r.deletion, r.metadata).True3?)
            && (!Listed(r) <==> IsFullyDeleted(r.deletion, r.metadata))
            && (forall cutoff: int {:trigger Compactable(r, cutoff)} ::
                  Compactable(r, cutoff) <==> OldTombstone(r, cutoff))
            && (var v := Upsert(Some(r), req, xid, uid, now);
                if Listed(r) then v.AlreadyExists?
                else v.Put? && v.row.uid == uid && v.row.version == 1 && v.row.deletion.None?)
  {
    EmptyRecorded();
    RecordedRun(Empty(), ops);
    OneTombstone(Exec(Empty(), ops).rows[k], req, xid, uid, now);
  }

  // ---- Suppressed writes ----

  /** A suppressed write finds what it carries in the row. */
  lemma SuppressedCarries(db: Db, req: Request)
    requires Enabled(db, Suppress(req))
    ensures req.key in db.rows && Carries(db.rows[req.key], req)
  {
    SuccessCarriesRequestIff(Lookup(db, req.key), req, 0, 0, 0);
  }

  predicate IsSuppressed(op: Op) { op.Store? && op.op.Suppress? }

  function WithoutSuppressed(ops: seq<Op>): (rest: seq<Op>)
    ensures forall op :: op in rest <==> op in ops && !IsSuppressed(op)
    decreases |ops|
  {
    if ops == [] then []
    else (if IsSuppressed(ops[0]) then [] else [ops[0]]) + WithoutSuppressed(ops[1..])
  }

  /** A suppressed write takes no id and so leaves the table, the ids and every reader's
      snapshot as they are: take all of them out of a run and it stays legal and ends in the
      same state, having delivered the same events. */
  lemma {:induction false} SuppressedUnobservable(s: System, ops: seq<Op>)
    requires LegalRun(s, ops)
    ensures LegalRun(s, WithoutSuppressed(ops)) && Run(s, WithoutSuppressed(ops)) == Run(s, ops)
    decreases |ops|
  {
    if ops == [] {
    } else {
      var s1 := Step(s, ops[0]);
      SuppressedUnobservable(s1, ops[1..]);
      if IsSuppressed(ops[0]) {
        assert s1 == s;
        assert WithoutSuppressed(ops) == WithoutSuppressed(ops[1..]);
      } else {
        var rest := WithoutSuppressed(ops);
        assert rest[0] == ops[0] && rest[1..] == WithoutSuppressed(ops[1..]);
      }
    }
  }
}
