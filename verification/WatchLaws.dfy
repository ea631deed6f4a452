/** Consequences of the watch invariant: compaction, redelivery, order and resuming. */
module WatchLaws {
  import opened Basics
  import opened Tombstone
  import opened Rows
  import opened Database
  import opened History
  import opened Watch

  // ---- Compaction ----

  /** In every run, when a poll is not refused, nothing was compacted above its
      high-water mark, and every object still cached (the channel included) has a row:
      each compacted object's deletion had been delivered. */
  lemma CompactionNeverHidesDeletion(db: Db, sc: Scope, items: seq<Event>, ops: seq<Op>)
    requires Consistent(db) && HorizonCovers(db) && IsListing(db, sc, items)
    requires LegalRun(Started(db, sc, items), ops) && CoveredRun(Started(db, sc, items), ops)
    ensures var s := Run(Started(db, sc, items), ops);
            !TooOld(s.db, s.inf.scope, s.inf.hwm) ==>
              && (forall c :: c in s.db.compacted && c.0 == s.inf.scope.gvk ==> c.1 <= s.inf.hwm)
              && (forall k :: k in Drain(s.inf.cache, s.inf.queue) ==> k in s.db.rows)
  {
    ListingSound(db, sc, items);
    RunSound(Started(db, sc, items), ops);
    RunCovers(Started(db, sc, items), ops);
  }

  /** In every run, a poll from any mark is refused exactly when a row of the group stamped
      above the mark was compacted. */
  lemma RefusedIffCompactedAbove(db: Db, sc: Scope, items: seq<Event>, ops: seq<Op>, mark: nat)
    requires Consistent(db) && HorizonCovers(db) && HorizonTight(db) && LegalRun(Started(db, sc, items), ops)
    ensures var s := Run(Started(db, sc, items), ops);
            TooOld(s.db, s.inf.scope, mark) <==> CompactedAbove(s.db, s.inf.scope.gvk, mark)
  {
    RunCovers(Started(db, sc, items), ops);
    var s := Run(Started(db, sc, items), ops);
    HorizonAboveIff(s.db, s.inf.scope.gvk, mark);
  }

  lemma {:induction false} RunCovers(s: System, ops: seq<Op>)
    requires Consistent(s.db) && HorizonCovers(s.db) && LegalRun(s, ops)
    ensures HorizonCovers(Run(s, ops).db) && (HorizonTight(s.db) ==> HorizonTight(Run(s, ops).db))
    decreases |ops|
  {
    if ops == [] {
    } else {
      if ops[0].Store? {
        ConsistentStep(s.db, ops[0].op);
        HorizonStep(s.db, ops[0].op);
      }
      RunCovers(Step(s, ops[0]), ops[1..]);
    }
  }

  // ---- Event types ----

  /** In every run a committed row is read as Deleted exactly when it carries a deletion time,
      and otherwise as Added exactly when it is the first commit of its uid.  The relay turns
      the Deleted of a row that List still shows into Modified. */
  lemma TypesTellTheCommit(ops: seq<DbOp>, k: Key, n: nat)
    requires Legal(Empty(), ops) && n < |HistoryOf(Exec(Empty(), ops), k)|
    ensures var h := HistoryOf(Exec(Empty(), ops), k);
            var first := forall i :: 0 <= i < n ==> h[i].uid != h[n].uid;
            && ReaderType(h[n]) == (if h[n].deletion.Some? then Deleted else if first then Added else Modified)
            && (ClientMade(h[n].metadata) ==>
                  RelayType(h[n]) == (if !Listed(h[n]) then Deleted
                                      else if h[n].deletion.None? && first then Added else Modified))
  {
    NoGaps(ops, k, n);
    var h := HistoryOf(Exec(Empty(), ops), k);
    if h[n].version > 1 {
      assert h[n - 1].uid == h[n].uid;
    }
    SqlFiltersAgree(h[n].deletion, h[n].metadata);
    GoAgreesWithSqlIff(h[n].deletion, h[n].metadata);
  }

  // ---- The high-water mark and redelivery ----

  predicate NoResume(ops: seq<Op>) { forall op :: op in ops ==> !op.Resume? }

  /** Every id below `x` has been issued and has finished. */
  ghost predicate SettledBelow(db: Db, x: nat) {
    x <= db.next && forall y :: y in db.open ==> x <= y
  }

  lemma SettledStep(db: Db, op: DbOp, x: nat)
    requires SettledBelow(db, x) && Enabled(db, op)
    ensures SettledBelow(Apply(db, op), x)
  {
  }

  /** While no version is resumed from, the high-water mark never falls, and every open
      transaction lies above it. */
  lemma {:induction false} HwmNeverFalls(s: System, ops: seq<Op>)
    requires Consistent(s.db) && SettledBelow(s.db, s.inf.hwm + 1) && LegalRun(s, ops) && NoResume(ops)
    ensures s.inf.hwm <= Run(s, ops).inf.hwm
    ensures Consistent(Run(s, ops).db) && SettledBelow(Run(s, ops).db, Run(s, ops).inf.hwm + 1)
    decreases |ops|
  {
    if ops == [] {
    } else {
      assert ops[0] in ops && forall op :: op in ops[1..] ==> op in ops;
      if ops[0].Store? {
        ConsistentStep(s.db, ops[0].op);
        SettledStep(s.db, ops[0].op, s.inf.hwm + 1);
      }
      HwmNeverFalls(Step(s, ops[0]), ops[1..]);
    }
  }

  /** A poll never delivers a row stamped below the xmin of an earlier poll: once every id
      up to a row's stamp has finished and one poll has passed, the row is not delivered
      again unless it is rewritten. */
  lemma BoundedRedelivery(s: System, first: seq<Event>, ops: seq<Op>, again: seq<Event>)
    requires Consistent(s.db) && SettledBelow(s.db, s.inf.hwm + 1)
    requires CanStep(s, Poll(first)) && !TooOld(s.db, s.inf.scope, s.inf.hwm)
    requires LegalRun(Step(s, Poll(first)), ops) && NoResume(ops)
    requires CanStep(Run(Step(s, Poll(first)), ops), Poll(again))
    ensures forall e :: e in again ==> Xmin(s.db) <= e.row.stamp
    ensures forall e :: e in again ==> !AllFinished(s.db, e.row.stamp)
  {
    var s1 := Step(s, Poll(first));
    HwmNeverFalls(s1, ops);
    assert Xmin(s.db) - 1 <= s1.inf.hwm;
    var s2 := Run(s1, ops);
    forall e | e in again
      ensures Xmin(s.db) <= e.row.stamp && !AllFinished(s.db, e.row.stamp)
    {
      var i :| 0 <= i < |again| && again[i] == e;
      assert Selected(s2.db.rows, s2.inf.scope, s2.inf.hwm, e.key);
      AllFinishedIffBelowXmin(s.db, e.row.stamp);
    }
  }

  // ---- Per-key order ----

  ghost predicate FromHistory(db: Db, e: Event) {
    e.at < |HistoryOf(db, e.key)| && HistoryOf(db, e.key)[e.at] == e.row
  }

  /** Everything sent so far is genuine, and per key the positions never go back. */
  ghost predicate InOrder(db: Db, sent: seq<Event>) {
    && (forall i :: 0 <= i < |sent| ==> FromHistory(db, sent[i]))
    && (forall i, j :: 0 <= i < j < |sent| && sent[i].key == sent[j].key ==> sent[i].at <= sent[j].at)
  }

  ghost predicate Orderly(s: System) {
    Recorded(s.db) && InOrder(s.db, s.inf.delivered + s.inf.queue)
  }

  lemma StoreOrderly(s: System, op: DbOp)
    requires Orderly(s) && CanStep(s, Store(op))
    ensures Orderly(Step(s, Store(op)))
  {
    RecordedStep(s.db, op);
    var sent := s.inf.delivered + s.inf.queue;
    forall i | 0 <= i < |sent|
      ensures FromHistory(Apply(s.db, op), sent[i])
    {
      assert FromHistory(s.db, sent[i]);
      HistoryGrows(s.db, op, sent[i].key);
    }
  }

  lemma LatestAppends(db: Db, sent: seq<Event>, answer: seq<Event>)
    requires InOrder(db, sent)
    requires forall i :: 0 <= i < |answer| ==>
               FromHistory(db, answer[i]) && answer[i].at + 1 == |HistoryOf(db, answer[i].key)|
    ensures InOrder(db, sent + answer)
  {
    var all := sent + answer;
    assert forall i :: 0 <= i < |all| ==> all[i] == if i < |sent| then sent[i] else answer[i - |sent|];
    assert forall i :: 0 <= i < |all| ==> FromHistory(db, all[i]);
  }

  lemma PresentedAppends(db: Db, wanted: set<Key>, sent: seq<Event>, items: seq<Event>)
    requires RowsAreLast(db) && InOrder(db, sent) && Presents(db, wanted, items)
    ensures InOrder(db, sent + items)
  {
    forall i | 0 <= i < |items|
      ensures FromHistory(db, items[i])
    {
      assert items[i].key in db.rows;
    }
    LatestAppends(db, sent, items);
  }

  lemma Regroup<T>(a: seq<T>, b: seq<T>, c: seq<T>)
    ensures a + (b + c) == a + b + c
  {
  }

  lemma PollOrderly(s: System, answer: seq<Event>)
    requires Orderly(s) && CanStep(s, Poll(answer))
    ensures Orderly(Step(s, Poll(answer)))
  {
    if !TooOld(s.db, s.inf.scope, s.inf.hwm) {
      PresentedAppends(s.db, Due(s.db.rows, s.inf.scope, s.inf.hwm), s.inf.delivered + s.inf.queue, answer);
      Regroup(s.inf.delivered, s.inf.queue, answer);
    }
  }

  lemma PrefixInOrder(db: Db, sent: seq<Event>, rest: seq<Event>)
    requires InOrder(db, sent + rest)
    ensures InOrder(db, sent)
  {
    assert forall i :: 0 <= i < |sent| ==> (sent + rest)[i] == sent[i];
  }

  lemma ShiftFirst<T>(a: seq<T>, q: seq<T>)
    requires q != []
    ensures a + [q[0]] + q[1..] == a + q
  {
  }

  lemma RelayOrderly(s: System)
    requires Orderly(s) && CanStep(s, Relay)
    ensures Orderly(Step(s, Relay))
  {
    ShiftFirst(s.inf.delivered, s.inf.queue);
  }

  /** A restart drops what is still in the channel; a relist hands over the latest rows. */
  lemma RestartOrderly(s: System, op: Op)
    requires Orderly(s) && CanStep(s, op) && (op.Relist? || op.Resume?)
    ensures Orderly(Step(s, op))
  {
    PrefixInOrder(s.db, s.inf.delivered, s.inf.queue);
    if op.Relist? {
      PresentedAppends(s.db, View(s.db.rows, s.inf.scope).Keys, s.inf.delivered, op.items);
    }
    var s' := Step(s, op);
    assert s'.inf.delivered + [] == s'.inf.delivered;
  }

  lemma StepOrderly(s: System, op: Op)
    requires Orderly(s) && CanStep(s, op)
    ensures Orderly(Step(s, op))
  {
    match op
    case Store(o) => StoreOrderly(s, o);
    case Poll(answer) => PollOrderly(s, answer);
    case Relay => RelayOrderly(s);
    case _ => RestartOrderly(s, op);
  }

  lemma {:induction false} RunOrderly(s: System, ops: seq<Op>)
    requires Orderly(s) && LegalRun(s, ops)
    ensures Orderly(Run(s, ops))
    decreases |ops|
  {
    if ops == [] {
    } else {
      StepOrderly(s, ops[0]);
      RunOrderly(Step(s, ops[0]), ops[1..]);
    }
  }

  /** The states delivered for one key, in order of delivery. */
  function StatesOf(sent: seq<Event>, k: Key): seq<Row> {
    if sent == [] then []
    else StatesOf(sent[..|sent| - 1], k) + (if sent[|sent| - 1].key == k then [sent[|sent| - 1].row] else [])
  }

  /** `a` is `b` with some elements left out and some repeated, in `b`'s order. */
  ghost predicate StutteringSubsequence<T(!new)>(a: seq<T>, b: seq<T>) {
    exists at: seq<nat> :: Embeds(a, b, at)
  }

  ghost predicate Embeds<T>(a: seq<T>, b: seq<T>, at: seq<nat>) {
    && |at| == |a|
    && (forall i :: 0 <= i < |a| ==> at[i] < |b| && b[at[i]] == a[i])
    && (forall i, j :: 0 <= i < j < |a| ==> at[i] <= at[j])
  }

  lemma {:induction false} StatesEmbed(db: Db, sent: seq<Event>, k: Key) returns (at: seq<nat>)
    requires InOrder(db, sent)
    ensures Embeds(StatesOf(sent, k), HistoryOf(db, k), at)
    ensures forall p :: p in at ==> exists i :: 0 <= i < |sent| && sent[i].key == k && sent[i].at == p
    decreases |sent|
  {
    if sent == [] {
      at := [];
    } else {
      var rest, last := sent[..|sent| - 1], sent[|sent| - 1];
      assert forall i :: 0 <= i < |rest| ==> rest[i] == sent[i];
      var prev := StatesEmbed(db, rest, k);
      at := prev;
      if last.key == k {
        assert FromHistory(db, last);
        forall p | p in prev
          ensures p <= last.at
        {
          var i :| 0 <= i < |rest| && rest[i].key == k && rest[i].at == p;
        }
        assert forall i :: 0 <= i < |prev| ==> prev[i] in prev;
        at := prev + [last.at];
      }
      forall p | p in at
        ensures exists i :: 0 <= i < |sent| && sent[i].key == k && sent[i].at == p
      {
        if p in prev {
          var i :| 0 <= i < |rest| && rest[i].key == k && rest[i].at == p;
          assert sent[i].key == k && sent[i].at == p;
        } else {
          assert sent[|sent| - 1].key == k && sent[|sent| - 1].at == p;
        }
      }
    }
  }

  lemma OrderlyEmbeds(s: System, k: Key)
    requires Orderly(s)
    ensures StutteringSubsequence(StatesOf(s.inf.delivered, k), HistoryOf(s.db, k))
  {
    PrefixInOrder(s.db, s.inf.delivered, s.inf.queue);
    var at := StatesEmbed(s.db, s.inf.delivered, k);
  }

  lemma Alone<T>(a: seq<T>)
    ensures [] + a == a && a + [] == a
  {
  }

  lemma StartedOrderly(db: Db, sc: Scope, items: seq<Event>)
    requires Recorded(db) && IsListing(db, sc, items)
    ensures Orderly(Started(db, sc, items))
  {
    Alone(items);
    PresentedAppends(db, View(db.rows, sc).Keys, [], items);
  }

  /** Over every run — resumes from any version and relists included — the states a
      consumer is listed or sent for one key are that key's committed states in commit
      order, some left out, some repeated. */
  lemma DeliveredInCommitOrder(db: Db, sc: Scope, items: seq<Event>, ops: seq<Op>, k: Key)
    requires Recorded(db) && IsListing(db, sc, items) && LegalRun(Started(db, sc, items), ops)
    ensures var s := Run(Started(db, sc, items), ops);
            StutteringSubsequence(StatesOf(s.inf.delivered, k), HistoryOf(s.db, k))
  {
    StartedOrderly(db, sc, items);
    RunOrderly(Started(db, sc, items), ops);
    OrderlyEmbeds(Run(Started(db, sc, items), ops), k);
  }

  // ---- The relay's version ----

  lemma {:induction false} RunExtends(s: System, ops: seq<Op>, op: Op)
    requires LegalRun(s, ops) && CanStep(Run(s, ops), op)
    ensures LegalRun(s, ops + [op]) && Run(s, ops + [op]) == Step(Run(s, ops), op)
    decreases |ops|
  {
    if ops == [] {
      assert ops + [op] == [op] && [op][1..] == [];
      assert Run(Step(s, op), []) == Step(s, op);
    } else {
      assert (ops + [op])[0] == ops[0] && (ops + [op])[1..] == ops[1..] + [op];
      RunExtends(Step(s, ops[0]), ops[1..], op);
    }
  }

  /** The relay's mark after the first `n` events. */
  function MarkAt(floor: nat, sent: seq<Event>, n: nat): nat
    requires n <= |sent|
  {
    if n == 0 then floor else Max(MarkAt(floor, sent, n - 1), sent[n - 1].row.stamp)
  }

  /** It is the largest stamp among them, or the starting mark if that is larger. */
  lemma {:induction false} MarkIsLargest(floor: nat, sent: seq<Event>, n: nat)
    requires n <= |sent|
    ensures MarkAt(floor, sent, n) >= floor
    ensures forall i :: 0 <= i < n ==> sent[i].row.stamp <= MarkAt(floor, sent, n)
    ensures MarkAt(floor, sent, n) == floor || exists i :: 0 <= i < n && sent[i].row.stamp == MarkAt(floor, sent, n)
    decreases n
  {
    if n == 0 {
    } else {
      MarkIsLargest(floor, sent, n - 1);
      assert sent[n - 1].row.stamp <= MarkAt(floor, sent, n);
    }
  }

  /** While a watch lasts, the version the relay stamps on objects is the largest stamp
      it has forwarded, or the version it started from. */
  lemma {:induction false} RelayVersionIsLargest(s: System, ops: seq<Op>)
    requires LegalRun(s, ops) && forall op :: op in ops ==> Background(op) || op.Poll?
    ensures s.inf.delivered <= Run(s, ops).inf.delivered
    ensures var sent := Run(s, ops).inf.delivered[|s.inf.delivered|..];
            Run(s, ops).inf.rv == MarkAt(s.inf.rv, sent, |sent|)
    decreases |ops|
  {
    if ops == [] {
      assert s.inf.delivered[|s.inf.delivered|..] == [];
    } else {
      assert ops[0] in ops && forall op :: op in ops[1..] ==> op in ops;
      var s1 := Step(s, ops[0]);
      RelayVersionIsLargest(s1, ops[1..]);
      if ops[0].Relay? {
        MarkShift(s.inf.rv, s.inf.delivered, s.inf.queue[0], Run(s1, ops[1..]).inf.delivered);
      }
    }
  }

  lemma MarkShift(floor: nat, sent: seq<Event>, e: Event, all: seq<Event>)
    requires sent + [e] <= all
    ensures sent <= all
    ensures MarkAt(floor, all[|sent|..], |all| - |sent|)
            == MarkAt(Max(floor, e.row.stamp), all[|sent| + 1..], |all| - |sent| - 1)
  {
    var n := |sent|;
    assert all[n] == e && all[n..] == [e] + all[n + 1..];
    MarkCons(floor, e, all[n + 1..], |all| - n - 1);
  }

  lemma {:induction false} MarkCons(floor: nat, e: Event, rest: seq<Event>, n: nat)
    requires n <= |rest|
    ensures MarkAt(floor, [e] + rest, n + 1) == MarkAt(Max(floor, e.row.stamp), rest, n)
    decreases n
  {
    if n == 0 {
    } else {
      MarkCons(floor, e, rest, n - 1);
    }
  }

  function FirstCreate(k: Key): Request {
    Write(k, "{}", Some("{}"), Metadata(Absent, "", true), None, 0, false)
  }

  /** The table with two transactions open, the later of which has committed `row`. */
  function SecondCommitted(k: Key, row: Row): Db {
    Empty().(next := FIRST_XID + 2, open := map[FIRST_XID := Idle],
             rows := map[k := row], history := map[k := [row]], owner := map[row.uid := k],
             causes := map[FIRST_XID + 1 := Cause(FirstCreate(k), None, 0)])
  }

  lemma TwoOpen(sc: Scope) returns (ops: seq<Op>)
    ensures LegalRun(Started(Empty(), sc, []), ops)
    ensures Run(Started(Empty(), sc, []), ops)
            == Started(Empty(), sc, []).(db := TwoIdle())
  {
    var s0 := Started(Empty(), sc, []);
    RunExtends(s0, [], Store(Begin));
    ops := [] + [Store(Begin)];
    assert Run(s0, ops).db.open == map[FIRST_XID := Idle];
    RunExtends(s0, ops, Store(Begin));
    ops := ops + [Store(Begin)];
    assert Run(s0, ops).db.open == map[FIRST_XID := Idle, FIRST_XID + 1 := Idle];
  }

  /** The table with the first two ids open and nothing written. */
  function TwoIdle(): Db {
    Empty().(next := FIRST_XID + 2, open := map[FIRST_XID := Idle, FIRST_XID + 1 := Idle])
  }

  lemma SecondWrites(k: Key) returns (row: Row)
    ensures row.stamp == FIRST_XID + 1 && row.version == 1 && ClientMade(row.metadata)
    ensures var op := Upserting(FIRST_XID + 1, FirstCreate(k), 1, 0);
            && Enabled(TwoIdle(), op)
            && Enabled(Apply(TwoIdle(), op), Commit(FIRST_XID + 1))
            && Apply(Apply(TwoIdle(), op), Commit(FIRST_XID + 1)) == SecondCommitted(k, row)
  {
    var x, req := FIRST_XID, FirstCreate(k);
    row := Upsert(None, req, x + 1, 1, 0).row;
    assert Unlocked(TwoIdle(), k);
    var d := Apply(TwoIdle(), Upserting(x + 1, req, 1, 0));
    assert d.open == map[x := Idle, x + 1 := Wrote(k, row)];
    assert HistoryOf(d, k) + [row] == [row];
    var d' := Apply(d, Commit(x + 1));
    assert d'.open == map[x := Idle];
    assert d' == SecondCommitted(k, row);
  }

  lemma SecondCommitsFirst(sc: Scope, k: Key) returns (ops: seq<Op>, row: Row)
    ensures LegalRun(Started(Empty(), sc, []), ops)
    ensures row.stamp == FIRST_XID + 1 && row.version == 1 && ClientMade(row.metadata)
    ensures Run(Started(Empty(), sc, []), ops) == Started(Empty(), sc, []).(db := SecondCommitted(k, row))
  {
    var s0 := Started(Empty(), sc, []);
    ops := TwoOpen(sc);
    row := SecondWrites(k);
    var op, end := Store(Upserting(FIRST_XID + 1, FirstCreate(k), 1, 0)), Store(Commit(FIRST_XID + 1));
    RunExtends(s0, ops, op);
    RunExtends(s0, ops + [op], end);
    ops := ops + [op] + [end];
  }

  lemma FirstStillOpen(db: Db, version: nat)
    requires db.open == map[FIRST_XID := Idle] && FIRST_XID < db.next && FIRST_XID <= version
    ensures IdsBelowNext(db) && Xmin(db) == FIRST_XID && !AllFinished(db, version)
  {
    assert FIRST_XID in db.open;
    assert Xmin(db) <= FIRST_XID;
    assert !Finished(db, FIRST_XID);
  }

  /** The relay's own version can be unfit to resume from: with a lower id still open in
      the snapshot, it forwards the higher stamp and names it. */
  lemma RelayVersionCanOverrun(sc: Scope, k: Key) returns (ops: seq<Op>)
    requires InScope(sc, k)
    ensures LegalRun(Started(Empty(), sc, []), ops)
    ensures var s := Run(Started(Empty(), sc, []), ops);
            && s.inf.queue == [] && !s.inf.gone
            && s.db.open == map[FIRST_XID := Idle] && IdsBelowNext(s.db) && Xmin(s.db) == FIRST_XID
            && s.inf.rv > FIRST_XID && s.inf.scope == sc && s.inf.cache == View(s.db.rows, sc)
            && !AllFinished(s.db, s.inf.rv) && !TooOld(s.db, sc, s.inf.rv)
            && MaySlip(s.db, sc, s.inf.cache, FIRST_XID)
  {
    var s0 := Started(Empty(), sc, []);
    var row;
    ops, row := SecondCommitsFirst(sc, k);
    var s4 := Run(s0, ops);
    var answer := [Event(k, row, 0)];
    assert Selected(s4.db.rows, sc, s4.inf.hwm, k) && answer[0].key == k;
    assert IsAnswer(s4.db, sc, s4.inf.hwm, answer);
    FirstStillOpen(s4.db, FIRST_XID);
    RunExtends(s0, ops, Poll(answer));
    ops := ops + [Poll(answer)];
    RunExtends(s0, ops, Relay);
    ops := ops + [Relay];
    var s := Run(s0, ops);
    assert s.db == s4.db && s.inf.rv == FIRST_XID + 1;
    FirstStillOpen(s.db, s.inf.rv);
  }

  /** A later commit can carry a smaller stamp: the order of delivery is not that of
      stamps. */
  lemma StampsCanFall(sc: Scope, k: Key) returns (ops: seq<Op>)
    ensures LegalRun(Started(Empty(), sc, []), ops)
    ensures var h := HistoryOf(Run(Started(Empty(), sc, []), ops).db, k);
            |h| == 2 && h[1].stamp < h[0].stamp
  {
    var s0, x := Started(Empty(), sc, []), FIRST_XID;
    var row;
    ops, row := SecondCommitsFirst(sc, k);
    var d0 := SecondCommitted(k, row);
    assert Unlocked(d0, k);
    var op := Upserting(x, WriteStatus(k, "{1}", row.version, false), row.uid + 1, 1);
    RunExtends(s0, ops, Store(op));
    ops := ops + [Store(op)];
    var d1 := Run(s0, ops).db;
    assert d1.open[x].Wrote? && HistoryOf(d1, k) == [row];
    RunExtends(s0, ops, Store(Commit(x)));
    ops := ops + [Store(Commit(x))];
  }
}
