/** Resuming a watch from a version: when it misses nothing, and what is lost otherwise.

    The code resumes from whatever version it is given.  `Complete` says exactly when that
    is harmless. */
module Resuming {
  import opened Basics
  import opened Tombstone
  import opened Rows
  import opened Database
  import opened History
  import opened Watch
  import opened WatchLaws
  import opened Scans

  /** A poll at the end of the run is not refused, and yet the consumer, with everything
      relayed, does not hold the snapshot's view. */
  ghost predicate Lost(s: System, ops: seq<Op>, answer: seq<Event>) {
    && LegalRun(s, ops) && CoveredRun(s, ops)
    && var s' := Run(s, ops);
       && CanStep(s', Poll(answer)) && !TooOld(s'.db, s'.inf.scope, s'.inf.hwm)
       && Drain(s'.inf.cache, s'.inf.queue + answer) != View(s'.db.rows, s'.inf.scope)
  }

  /** However writers, compactors and this informer go on, no poll misses anything. */
  ghost predicate NeverLoses(s: System) {
    forall ops: seq<Op>, answer: seq<Event> :: !Lost(s, ops, answer)
  }

  lemma CompleteNeverLoses(s: System)
    requires Sound(s)
    ensures NeverLoses(s)
  {
    forall ops: seq<Op>, answer: seq<Event>
      ensures !Lost(s, ops, answer)
    {
      if LegalRun(s, ops) && CoveredRun(s, ops) {
        RunSound(s, ops);
        var s' := Run(s, ops);
        if CanStep(s', Poll(answer)) && !TooOld(s'.db, s'.inf.scope, s'.inf.hwm) {
          PollCatchesUp(s', answer);
        }
      }
    }
  }

  // ---- Losing runs ----

  /** What a poll does to a key it does not select: nothing. */
  lemma UnselectedStays(s: System, answer: seq<Event>, k: Key)
    requires RowsOk(s.db) && CanStep(s, Poll(answer)) && !Selected(s.db.rows, s.inf.scope, s.inf.hwm, k)
    ensures var before, after := Drain(s.inf.cache, s.inf.queue), Drain(s.inf.cache, s.inf.queue + answer);
            (k in after <==> k in before) && (k in before ==> after[k] == before[k])
  {
    DrainConcat(s.inf.cache, s.inf.queue, answer);
    assert forall e :: e in answer ==> ClientMade(e.row.metadata);
    DrainDistinct(Drain(s.inf.cache, s.inf.queue), answer);
  }

  lemma AnswerNow(s: System) returns (answer: seq<Event>)
    requires Recorded(s.db) && !s.inf.gone
    ensures CanStep(s, Poll(answer))
  {
    answer := PresentationExists(s.db, Due(s.db.rows, s.inf.scope, s.inf.hwm));
  }

  /** A key the poll does not select, on which the consumer and the view differ. */
  ghost predicate Overlooked(s: System, k: Key) {
    var held, view := Drain(s.inf.cache, s.inf.queue), View(s.db.rows, s.inf.scope);
    && !Selected(s.db.rows, s.inf.scope, s.inf.hwm, k)
    && ((k in held) != (k in view) || (k in held && held[k] != view[k]))
  }

  lemma OverlookedLost(s: System, k: Key) returns (answer: seq<Event>)
    requires Recorded(s.db) && !s.inf.gone && !TooOld(s.db, s.inf.scope, s.inf.hwm) && Overlooked(s, k)
    ensures Lost(s, [], answer)
  {
    answer := AnswerNow(s);
    UnselectedStays(s, answer, k);
  }

  /** Losing after one more step is losing. */
  lemma LostLater(s: System, op: Op, ops: seq<Op>, answer: seq<Event>)
    requires CanStep(s, op) && !op.Resume? && Lost(Step(s, op), ops, answer)
    ensures Lost(s, [op] + ops, answer)
  {
    assert ([op] + ops)[0] == op && ([op] + ops)[1..] == ops;
  }

  lemma LostNext(s: System, op: Op, answer: seq<Event>)
    requires CanStep(s, op) && !op.Resume? && Lost(Step(s, op), [], answer)
    ensures Lost(s, [op], answer)
  {
    LostLater(s, op, [], answer);
    assert [op] + [] == [op];
  }

  /** A cache that is not up to date lacks something no poll from the mark brings. */
  lemma StaleOverlooked(s: System) returns (k: Key)
    requires !UpToDate(s.db, s.inf.scope, Drain(s.inf.cache, s.inf.queue), s.inf.hwm)
    ensures Overlooked(s, k)
  {
    var held, sc, rows := Drain(s.inf.cache, s.inf.queue), s.inf.scope, s.db.rows;
    if j :| j in held && !(InScope(sc, j) && j in rows) {
      k := j;
    } else {
      k :| k in rows && InScope(sc, k) && rows[k].stamp <= s.inf.hwm && !Reflects(held, k, rows[k]);
    }
  }

  lemma StaleLoses(s: System) returns (answer: seq<Event>)
    requires Recorded(s.db) && !s.inf.gone && !TooOld(s.db, s.inf.scope, s.inf.hwm)
    requires !UpToDate(s.db, s.inf.scope, Drain(s.inf.cache, s.inf.queue), s.inf.hwm)
    ensures Lost(s, [], answer)
  {
    var k := StaleOverlooked(s);
    answer := OverlookedLost(s, k);
  }

  /** The consumer's key `k` is not as the pending row calls for. */
  ghost predicate Differs(held: map<Key, Row>, k: Key, row: Row) {
    if Listed(row) then !(k in held && held[k] == row) else k in held
  }

  /** The commit of a write under the mark leaves the consumer behind on its key. */
  lemma CommitOverlooked(s: System, y: nat)
    requires IdsOk(s.db) && y in s.db.open && s.db.open[y].Wrote? && y <= s.inf.hwm
    requires InScope(s.inf.scope, s.db.open[y].key)
    requires Differs(Drain(s.inf.cache, s.inf.queue), s.db.open[y].key, s.db.open[y].row)
    ensures CanStep(s, Store(Commit(y)))
    ensures Overlooked(Step(s, Store(Commit(y))), s.db.open[y].key)
    ensures Step(s, Store(Commit(y))).inf == s.inf && Step(s, Store(Commit(y))).db.horizon == s.db.horizon
  {
    var k := s.db.open[y].key;
    var rows := Apply(s.db, Commit(y)).rows;
    assert rows == s.db.rows[k := s.db.open[y].row] && rows[k].stamp == y;
  }

  lemma CommitLoses(s: System, y: nat) returns (answer: seq<Event>)
    requires Recorded(s.db) && !s.inf.gone && !TooOld(s.db, s.inf.scope, s.inf.hwm)
    requires y in s.db.open && s.db.open[y].Wrote? && y <= s.inf.hwm && InScope(s.inf.scope, s.db.open[y].key)
    requires Differs(Drain(s.inf.cache, s.inf.queue), s.db.open[y].key, s.db.open[y].row)
    ensures Lost(s, [Store(Commit(y))], answer)
  {
    RecordedStep(s.db, Commit(y));
    CommitOverlooked(s, y);
    var s' := Step(s, Store(Commit(y)));
    assert Recorded(s'.db) && !TooOld(s'.db, s'.inf.scope, s'.inf.hwm);
    answer := OverlookedLost(s', s.db.open[y].key);
    LostNext(s, Store(Commit(y)), answer);
  }

  /** A row some open id wrote is not in a view. */
  lemma PendingNotHeld(db: Db, sc: Scope, y: nat)
    requires Consistent(db) && y in db.open && db.open[y].Wrote?
    ensures var k, row, view := db.open[y].key, db.open[y].row, View(db.rows, sc);
            Listed(row) || k in view ==> Differs(view, k, row)
  {
  }

  /** A pending write under the mark that concerns the scope can be lost. */
  lemma PendingLoses(s: System, y: nat) returns (ops: seq<Op>, answer: seq<Event>)
    requires Recorded(s.db) && !s.inf.gone && !TooOld(s.db, s.inf.scope, s.inf.hwm)
    requires y in s.db.open && s.db.open[y].Wrote? && y <= s.inf.hwm
    requires MaySlip(s.db, s.inf.scope, Drain(s.inf.cache, s.inf.queue), y)
    ensures Lost(s, ops, answer)
  {
    var held, view := Drain(s.inf.cache, s.inf.queue), View(s.db.rows, s.inf.scope);
    var k, row := s.db.open[y].key, s.db.open[y].row;
    if !Listed(row) && k in held {
      answer := CommitLoses(s, y);
      ops := [Store(Commit(y))];
    } else {
      var first := AnswerNow(s);
      if Drain(s.inf.cache, s.inf.queue + first) != view {
        ops, answer := [], first;
      } else {
        var s1 := Step(s, Poll(first));
        PendingNotHeld(s.db, s.inf.scope, y);
        answer := CommitLoses(s1, y);
        LostLater(s, Poll(first), [Store(Commit(y))], answer);
        ops := [Poll(first)] + [Store(Commit(y))];
      }
    }
  }

  // ---- An id that has not written yet ----

  /** A name longer than those of finitely many keys. */
  lemma {:induction false} FreshName(keys: set<Key>) returns (name: string)
    ensures forall k :: k in keys ==> |k.name| < |name|
    decreases |keys|
  {
    if keys == {} {
      name := "";
    } else {
      var k :| k in keys;
      var rest := FreshName(keys - {k});
      name := rest + k.name + "x";
      assert forall j :: j in keys ==> j == k || j in keys - {k};
    }
  }

  /** A key of the scope that nobody uses. */
  lemma FreshKey(db: Db, sc: Scope) returns (k: Key)
    requires LocksOk(db) && !Vacant(sc)
    ensures InScope(sc, k) && k !in db.rows && Unlocked(db, k)
  {
    var ns :| sc.owns(ns);
    var pending := set x | x in db.open && db.open[x].Wrote? :: db.open[x].key;
    var name := FreshName(db.rows.Keys + pending);
    k := Key(sc.gvk, ns, name);
    forall x | x in db.open
      ensures !Touches(db.open[x], k)
    {
      if db.open[x].Wrote? {
        assert db.open[x].key in pending;
      }
    }
  }

  /** An idle id under the mark can create an object no poll brings. */
  lemma IdleLoses(s: System, y: nat) returns (ops: seq<Op>, answer: seq<Event>)
    requires Recorded(s.db) && !s.inf.gone && !TooOld(s.db, s.inf.scope, s.inf.hwm)
    requires UpToDate(s.db, s.inf.scope, Drain(s.inf.cache, s.inf.queue), s.inf.hwm)
    requires y in s.db.open && s.db.open[y].Idle? && y <= s.inf.hwm && !Vacant(s.inf.scope)
    ensures Lost(s, ops, answer)
  {
    var k := FreshKey(s.db, s.inf.scope);
    var uid := Above(s.db.owner.Keys);
    var write := Upserting(y, FirstCreate(k), uid, 0);
    RecordedStep(s.db, write);
    var s1 := Step(s, Store(write));
    answer := CommitLoses(s1, y);
    LostLater(s, Store(write), [Store(Commit(y))], answer);
    ops := [Store(write)] + [Store(Commit(y))];
  }

  /** So can an id that is yet to be issued. */
  lemma UnissuedLoses(s: System) returns (ops: seq<Op>, answer: seq<Event>)
    requires Recorded(s.db) && !s.inf.gone && !TooOld(s.db, s.inf.scope, s.inf.hwm)
    requires UpToDate(s.db, s.inf.scope, Drain(s.inf.cache, s.inf.queue), s.inf.hwm)
    requires s.db.next <= s.inf.hwm && !Vacant(s.inf.scope)
    ensures Lost(s, ops, answer)
  {
    RecordedStep(s.db, Begin);
    var s1 := Step(s, Store(Begin));
    var rest;
    rest, answer := IdleLoses(s1, s.db.next);
    LostLater(s, Store(Begin), rest, answer);
    ops := [Store(Begin)] + rest;
  }

  /** Whenever an id at or below the mark may slip, some run loses an object. */
  lemma SlippingLoses(s: System, y: nat) returns (ops: seq<Op>, answer: seq<Event>)
    requires Recorded(s.db) && !s.inf.gone && !TooOld(s.db, s.inf.scope, s.inf.hwm)
    requires y <= s.inf.hwm && MaySlip(s.db, s.inf.scope, Drain(s.inf.cache, s.inf.queue), y)
    ensures Lost(s, ops, answer)
  {
    if !UpToDate(s.db, s.inf.scope, Drain(s.inf.cache, s.inf.queue), s.inf.hwm) {
      answer := StaleLoses(s);
      ops := [];
    } else if y !in s.db.open {
      ops, answer := UnissuedLoses(s);
    } else if s.db.open[y].Idle? {
      ops, answer := IdleLoses(s, y);
    } else {
      ops, answer := PendingLoses(s, y);
    }
  }

  // ---- The exact condition ----

  /** Resuming from a version never loses anything exactly when polling from it is refused
      or all at or below it is in the cache and no id there may still slip. */
  lemma ResumeExact(s: System, version: nat)
    requires Recorded(s.db)
    ensures CanStep(s, Resume(version))
    ensures NeverLoses(Step(s, Resume(version)))
            <==> Complete(s.db, s.inf.scope, s.inf.cache, version)
  {
    var s', sc := Step(s, Resume(version)), s.inf.scope;
    assert Drain(s'.inf.cache, s'.inf.queue) == s.inf.cache;
    if Complete(s.db, sc, s.inf.cache, version) {
      CompleteNeverLoses(s');
    } else if !UpToDate(s.db, sc, s.inf.cache, version) {
      var answer := StaleLoses(s');
    } else {
      var y: nat :| y <= version && MaySlip(s.db, sc, s.inf.cache, y);
      var ops, answer := SlippingLoses(s', y);
    }
  }

  /** Id `y` has yet to finish in a way the scope would see. */
  ghost predicate StillMatters(db: Db, sc: Scope, y: nat) {
    if y !in db.open then y >= db.next
    else
      match db.open[y]
      case Idle => true
      case Wrote(k, row) => InScope(sc, k) && (Listed(row) || (k in db.rows && Listed(db.rows[k])))
      case Compacting(_) => false
  }

  lemma SlipsIffMatters(db: Db, sc: Scope, y: nat)
    requires !Vacant(sc)
    ensures MaySlip(db, sc, View(db.rows, sc), y) <==> StillMatters(db, sc, y)
  {
  }

  /** For a consumer that holds a snapshot's view: resuming from a version at that point
      never loses anything exactly when it will be refused, there is nothing to see, or no
      id at or below it is unissued, idle or has written a row that is listed or replaces
      a listed one. */
  lemma ResumeAtSnapshotExact(s: System, version: nat)
    requires Recorded(s.db) && s.inf.cache == View(s.db.rows, s.inf.scope)
    ensures CanStep(s, Resume(version))
    ensures NeverLoses(Step(s, Resume(version)))
            <==> || TooOld(s.db, s.inf.scope, version) || Vacant(s.inf.scope)
                 || forall y: nat :: y <= version ==> !StillMatters(s.db, s.inf.scope, y)
  {
    ResumeExact(s, version);
    ViewCompleteIff(s.db, s.inf.scope, version);
  }

  lemma ViewCompleteIff(db: Db, sc: Scope, version: nat)
    ensures Complete(db, sc, View(db.rows, sc), version)
            <==> TooOld(db, sc, version) || Vacant(sc) || forall y: nat :: y <= version ==> !StillMatters(db, sc, y)
  {
    var view := View(db.rows, sc);
    assert UpToDate(db, sc, view, version);
    if Vacant(sc) {
      assert NoneSlips(db, sc, view, version);
    } else {
      forall y: nat
        ensures MaySlip(db, sc, view, y) <==> StillMatters(db, sc, y)
      {
        SlipsIffMatters(db, sc, y);
      }
    }
  }

  /** The relay's own version is not safe to resume from: a run in which the consumer holds
      all there is, resumes from the version its last object carries, and then misses an
      object for good. */
  lemma RelayResumeLoses(sc: Scope, k: Key) returns (ops: seq<Op>, rest: seq<Op>, answer: seq<Event>)
    requires InScope(sc, k)
    ensures LegalRun(Started(Empty(), sc, []), ops)
    ensures var s := Run(Started(Empty(), sc, []), ops);
            && s.inf.cache == View(s.db.rows, sc) && s.inf.queue == []
            && CanStep(s, Resume(s.inf.rv)) && Lost(Step(s, Resume(s.inf.rv)), rest, answer)
  {
    ops := RelayVersionCanOverrun(sc, k);
    var s := Run(Started(Empty(), sc, []), ops);
    EmptyRecorded();
    SystemRecorded(Started(Empty(), sc, []), ops);
    var s' := Step(s, Resume(s.inf.rv));
    assert Drain(s'.inf.cache, s'.inf.queue) == s.inf.cache;
    rest, answer := SlippingLoses(s', FIRST_XID);
  }

  lemma {:induction false} SystemRecorded(s: System, ops: seq<Op>)
    requires Recorded(s.db) && LegalRun(s, ops)
    ensures Recorded(Run(s, ops).db)
    decreases |ops|
  {
    if ops == [] {
    } else {
      if ops[0].Store? {
        RecordedStep(s.db, ops[0].op);
      }
      SystemRecorded(Step(s, ops[0]), ops[1..]);
    }
  }

  // ---- What a caller can rely on ----

  /** Up to stamp `x` (exclusive) the cache agrees with the table; an object whose row is
      gone is still cached only if the horizon has passed `x`. */
  ghost predicate Agrees(db: Db, sc: Scope, cache: map<Key, Row>, x: nat) {
    && (forall k :: k in cache ==> InScope(sc, k))
    && (forall k :: k in db.rows && InScope(sc, k) && db.rows[k].stamp < x ==> Reflects(cache, k, db.rows[k]))
    && (forall k :: k in cache && k !in db.rows ==> x <= HorizonOf(db.horizon, sc.gvk))
  }

  /** Events still in the channel do not contradict rows older than `x`. */
  ghost predicate Pending(db: Db, sc: Scope, queue: seq<Event>, x: nat) {
    forall e :: e in queue ==>
      && InScope(sc, e.key) && ClientMade(e.row.metadata)
      && (e.key in db.rows && db.rows[e.key].stamp < x ==> e.row == db.rows[e.key])
      && (e.key !in db.rows ==> IsTombstone(e.row) || x <= HorizonOf(db.horizon, sc.gvk))
  }

  /** The consumer, with and without the channel, agrees with the table as far as the
      snapshots it was served go. */
  ghost predicate Served(s: System) {
    var inf := s.inf;
    && SettledBelow(s.db, inf.snapXmin)
    && 1 <= inf.acked <= inf.snapXmin && (inf.queue == [] ==> inf.acked == inf.snapXmin)
    && Agrees(s.db, inf.scope, Drain(inf.cache, inf.queue), inf.snapXmin)
    && Agrees(s.db, inf.scope, inf.cache, inf.acked)
    && Pending(s.db, inf.scope, inf.queue, inf.acked)
  }

  /** What a step of the store does to the rows, as far as a reader that has seen all
      ids below `x` is concerned: new stamps are `x` or more, and a row disappears only
      as a tombstone the horizon covers. */
  ghost predicate Evolves(db: Db, db': Db, x: nat) {
    && SettledBelow(db', x)
    && (forall k :: k in db'.rows ==> (k in db.rows && db'.rows[k] == db.rows[k]) || x <= db'.rows[k].stamp)
    && (forall k :: k in db.rows && k !in db'.rows ==>
          IsTombstone(db.rows[k]) && db.rows[k].stamp <= HorizonOf(db'.horizon, k.gvk))
    && (forall g :: HorizonOf(db.horizon, g) <= HorizonOf(db'.horizon, g))
  }

  lemma CompactionEvolves(db: Db, y: nat, x: nat)
    requires LocksOk(db) && Enabled(db, Commit(y)) && db.open[y].Compacting? && SettledBelow(db, x)
    ensures Evolves(db, Apply(db, Commit(y)), x)
  {
    SettledStep(db, Commit(y), x);
    RaiseIsLeastCover(db.horizon, db.rows, db.open[y].keys);
  }

  lemma WriteEvolves(db: Db, y: nat, x: nat)
    requires IdsOk(db) && y in db.open && db.open[y].Wrote? && SettledBelow(db, x)
    ensures Evolves(db, Apply(db, Commit(y)), x)
  {
    SettledStep(db, Commit(y), x);
  }

  lemma StoreEvolves(db: Db, op: DbOp, x: nat)
    requires Consistent(db) && Enabled(db, op) && SettledBelow(db, x)
    ensures Evolves(db, Apply(db, op), x)
  {
    if op.Commit? && db.open[op.xid].Compacting? {
      CompactionEvolves(db, op.xid, x);
    } else if op.Commit? && db.open[op.xid].Wrote? {
      WriteEvolves(db, op.xid, x);
    } else {
      SettledStep(db, op, x);
      assert Apply(db, op).horizon == db.horizon && Apply(db, op).rows == db.rows;
    }
  }

  lemma EvolvingKeepsAgrees(db: Db, db': Db, sc: Scope, cache: map<Key, Row>, x: nat)
    requires Evolves(db, db', x) && Agrees(db, sc, cache, x)
    ensures Agrees(db', sc, cache, x)
  {
    forall k | k in cache && k !in db'.rows
      ensures x <= HorizonOf(db'.horizon, sc.gvk)
    {
      if k in db.rows {
        assert !Reflects(cache, k, db.rows[k]);
      }
    }
  }

  lemma EvolvingKeepsPending(db: Db, db': Db, sc: Scope, queue: seq<Event>, x: nat)
    requires Evolves(db, db', x) && Pending(db, sc, queue, x)
    ensures Pending(db', sc, queue, x)
  {
  }

  lemma StoreServed(s: System, op: DbOp)
    requires Consistent(s.db) && Served(s) && CanStep(s, Store(op))
    ensures Served(Step(s, Store(op)))
  {
    var inf, db' := s.inf, Apply(s.db, op);
    StoreEvolves(s.db, op, inf.snapXmin);
    StoreEvolves(s.db, op, inf.acked);
    EvolvingKeepsAgrees(s.db, db', inf.scope, Drain(inf.cache, inf.queue), inf.snapXmin);
    EvolvingKeepsAgrees(s.db, db', inf.scope, inf.cache, inf.acked);
    EvolvingKeepsPending(s.db, db', inf.scope, inf.queue, inf.acked);
  }

  lemma ViewAgrees(db: Db, sc: Scope, x: nat)
    requires Consistent(db)
    ensures Agrees(db, sc, View(db.rows, sc), x)
  {
  }

  lemma AnswerPending(db: Db, sc: Scope, hwm: nat, queue: seq<Event>, answer: seq<Event>, x: nat)
    requires RowsOk(db) && Pending(db, sc, queue, x) && IsAnswer(db, sc, hwm, answer)
    ensures Pending(db, sc, queue + answer, x)
  {
    forall e | e in queue + answer
      ensures e in queue || e in answer
    {
    }
  }

  lemma PollServed(s: System, answer: seq<Event>)
    requires Sound(s) && Served(s) && CanStep(s, Poll(answer))
    ensures Served(Step(s, Poll(answer)))
  {
    if !TooOld(s.db, s.inf.scope, s.inf.hwm) {
      PollCatchesUp(s, answer);
      ViewAgrees(s.db, s.inf.scope, Xmin(s.db));
      AnswerPending(s.db, s.inf.scope, s.inf.hwm, s.inf.queue, answer, s.inf.acked);
      if s.inf.queue + answer == [] {
        assert Drain(s.inf.cache, []) == s.inf.cache;
      }
    }
  }

  /** An event that does not contradict the rows older than `x` keeps the agreement. */
  lemma ConsumeAgrees(db: Db, sc: Scope, cache: map<Key, Row>, queue: seq<Event>, x: nat, e: Event)
    requires RowsOk(db) && Agrees(db, sc, cache, x) && Pending(db, sc, queue, x) && e in queue
    ensures Agrees(db, sc, Consume(cache, e), x)
  {
    assert Reflects(Consume(cache, e), e.key, e.row);
  }

  lemma RelayServed(s: System)
    requires Consistent(s.db) && Served(s) && CanStep(s, Relay)
    ensures Served(Step(s, Relay))
  {
    var inf, inf' := s.inf, Relayed(s.inf);
    assert Drain(inf.cache, inf.queue) == Drain(inf'.cache, inf'.queue);
    assert forall f :: f in inf'.queue ==> f in inf.queue;
    ConsumeAgrees(s.db, inf.scope, inf.cache, inf.queue, inf.acked, inf.queue[0]);
    if inf'.queue == [] {
      assert Drain(inf'.cache, inf'.queue) == inf'.cache;
    }
  }

  lemma StepServed(s: System, op: Op)
    requires Sound(s) && Served(s) && CanStep(s, op)
    ensures Served(Step(s, op))
  {
    match op
    case Store(o) => StoreServed(s, o);
    case Poll(answer) => PollServed(s, answer);
    case Relay => RelayServed(s);
    case Relist(items) =>
      ViewAgrees(s.db, s.inf.scope, Xmin(s.db));
      assert Drain(View(s.db.rows, s.inf.scope), []) == View(s.db.rows, s.inf.scope);
    case Resume(version) =>
      assert Drain(s.inf.cache, []) == s.inf.cache;
  }

  lemma {:induction false} RunServed(s: System, ops: seq<Op>)
    requires Sound(s) && Served(s) && LegalRun(s, ops) && CoveredRun(s, ops)
    ensures Sound(Run(s, ops)) && Served(Run(s, ops))
    decreases |ops|
  {
    if ops == [] {
    } else {
      StepSound(s, ops[0]);
      StepServed(s, ops[0]);
      RunServed(Step(s, ops[0]), ops[1..]);
    }
  }

  /** A version below the last snapshot that was relayed in full is covered, however the
      table moved on since. */
  lemma BelowAckedCovered(s: System, version: nat)
    requires Served(s) && version < s.inf.acked
    ensures Covered(s, Resume(version))
  {
    var sc, cache := s.inf.scope, s.inf.cache;
    if !TooOld(s.db, sc, version) {
      assert UpToDate(s.db, sc, cache, version);
      forall y: nat | y <= version
        ensures !MaySlip(s.db, sc, cache, y)
      {
      }
    }
  }

  lemma StepKeepsAcked(s: System, op: Op)
    requires Sound(s) && Served(s) && CanStep(s, op)
    ensures s.inf.acked <= Step(s, op).inf.acked
  {
  }

  /** What has been relayed in full stays so. */
  lemma {:induction false} AckedNeverFalls(s: System, ops: seq<Op>)
    requires Sound(s) && Served(s) && LegalRun(s, ops) && CoveredRun(s, ops)
    ensures s.inf.acked <= Run(s, ops).inf.acked
    decreases |ops|
  {
    if ops == [] {
    } else {
      StepSound(s, ops[0]);
      StepServed(s, ops[0]);
      StepKeepsAcked(s, ops[0]);
      AckedNeverFalls(Step(s, ops[0]), ops[1..]);
    }
  }

  lemma ListingServed(db: Db, sc: Scope, delivered: seq<Event>)
    requires Consistent(db)
    ensures Served(System(db, Listing(db, sc, delivered)))
  {
    var view := View(db.rows, sc);
    assert Drain(view, []) == view;
    ViewAgrees(db, sc, Xmin(db));
  }

  lemma StartedServed(db: Db, sc: Scope, items: seq<Event>, ops: seq<Op>)
    requires Consistent(db) && LegalRun(Started(db, sc, items), ops) && CoveredRun(Started(db, sc, items), ops)
    ensures var s := Run(Started(db, sc, items), ops);
            Sound(s) && Served(s) && Started(db, sc, items).inf.acked <= s.inf.acked
  {
    ListingSound(db, sc, items);
    ListingServed(db, sc, items);
    RunServed(Started(db, sc, items), ops);
    AckedNeverFalls(Started(db, sc, items), ops);
  }

  /** A List version stays safe to resume from: after the listing, after every run of polls,
      relays, relists, covered resumes, writers and compactors. */
  lemma ListVersionCovered(db: Db, sc: Scope, items: seq<Event>, ops: seq<Op>)
    requires Consistent(db) && IsListing(db, sc, items)
    requires LegalRun(Started(db, sc, items), ops) && CoveredRun(Started(db, sc, items), ops)
    ensures var s := Started(db, sc, items);
            && AllFinished(db, s.inf.rv) && !AllFinished(db, s.inf.rv + 1)
            && Covered(Run(s, ops), Resume(s.inf.rv))
  {
    var s := Started(db, sc, items);
    StartedServed(db, sc, items, ops);
    AllFinishedIffBelowXmin(db, Xmin(db) - 1);
    AllFinishedIffBelowXmin(db, Xmin(db));
    BelowAckedCovered(Run(s, ops), s.inf.rv);
  }

  lemma {:induction false} BackgroundKeepsMarks(s: System, ops: seq<Op>)
    requires LegalRun(s, ops) && forall op :: op in ops ==> Background(op)
    ensures Run(s, ops).inf.snapXmin == s.inf.snapXmin && CoveredRun(s, ops)
    decreases |ops|
  {
    if ops == [] {
    } else {
      assert ops[0] in ops && forall op :: op in ops[1..] ==> op in ops;
      BackgroundKeepsMarks(Step(s, ops[0]), ops[1..]);
    }
  }

  /** A snapshot that is polled and relayed in full is acknowledged. */
  lemma RelayedIsAcked(s: System, answer: seq<Event>, relayed: seq<Op>)
    requires Sound(s) && Served(s) && CanStep(s, Poll(answer)) && !TooOld(s.db, s.inf.scope, s.inf.hwm)
    requires LegalRun(Step(s, Poll(answer)), relayed) && forall op :: op in relayed ==> Background(op)
    requires Run(Step(s, Poll(answer)), relayed).inf.queue == []
    ensures var s' := Run(Step(s, Poll(answer)), relayed);
            Sound(s') && Served(s') && s'.inf.acked == Xmin(s.db)
  {
    var polled := Step(s, Poll(answer));
    StepSound(s, Poll(answer));
    StepServed(s, Poll(answer));
    BackgroundKeepsMarks(polled, relayed);
    RunServed(polled, relayed);
  }

  /** In every run from a listing: once a snapshot's events have all been relayed, every
      version whose ids had all finished in that snapshot is safe to resume from, then and
      after whatever follows.  So is the watcher's own mark whenever the channel is empty. */
  lemma AllFinishedSuffices(db: Db, sc: Scope, items: seq<Event>, before: seq<Op>, answer: seq<Event>,
                            relayed: seq<Op>, after: seq<Op>, version: nat)
    requires Consistent(db) && IsListing(db, sc, items)
    requires LegalRun(Started(db, sc, items), before) && CoveredRun(Started(db, sc, items), before)
    requires var s := Run(Started(db, sc, items), before);
             && CanStep(s, Poll(answer)) && !TooOld(s.db, s.inf.scope, s.inf.hwm)
             && LegalRun(Step(s, Poll(answer)), relayed) && (forall op :: op in relayed ==> Background(op))
             && AllFinished(s.db, version)
             && var s' := Run(Step(s, Poll(answer)), relayed);
                s'.inf.queue == [] && LegalRun(s', after) && CoveredRun(s', after)
    ensures var s := Run(Started(db, sc, items), before);
            var end := Run(Run(Step(s, Poll(answer)), relayed), after);
            && Covered(end, Resume(version))
            && (end.inf.queue == [] ==> Covered(end, Resume(end.inf.hwm)))
  {
    var s := Run(Started(db, sc, items), before);
    StartedServed(db, sc, items, before);
    RelayedIsAcked(s, answer, relayed);
    AllFinishedIffBelowXmin(s.db, version);
    FinishedStaysCovered(Run(Step(s, Poll(answer)), relayed), after, version);
  }

  lemma FinishedStaysCovered(s: System, after: seq<Op>, version: nat)
    requires Sound(s) && Served(s) && LegalRun(s, after) && CoveredRun(s, after) && version < s.inf.acked
    ensures var end := Run(s, after);
            Covered(end, Resume(version)) && (end.inf.queue == [] ==> Covered(end, Resume(end.inf.hwm)))
  {
    var end := Run(s, after);
    RunServed(s, after);
    AckedNeverFalls(s, after);
    BelowAckedCovered(end, version);
    assert Drain(end.inf.cache, []) == end.inf.cache;
  }
}
