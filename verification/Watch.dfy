/** Listing and watching: a consumer that lists once and then applies the relayed
    events of polled snapshots. */
module Watch {
  import opened Basics
  import opened Tombstone
  import opened Rows
  import opened Database

  /** What one informer covers: a group, and the namespaces its shard owns. */
  datatype Scope = Scope(gvk: string, owns: string -> bool)

  predicate InScope(sc: Scope, k: Key) { k.gvk == sc.gvk && sc.owns(k.ns) }

  /** The live and dying rows of a snapshot: what List returns. */
  function View(rows: map<Key, Row>, sc: Scope): map<Key, Row> {
    map k | k in rows && InScope(sc, k) && Listed(rows[k]) :: rows[k]
  }

  /** A row as a poll saw it; `at` is its position in the key's committed history. */
  datatype Event = Event(key: Key, row: Row, at: nat)

  datatype EventType = Added | Modified | Deleted

  /** The type the reader gives a row. */
  function ReaderType(r: Row): EventType {
    if r.deletion.Some? then Deleted
    else if r.version == 1 then Added
    else Modified
  }

  /** The type the relay forwards: a dying object is still an object. */
  function RelayType(r: Row): EventType {
    if ReaderType(r) == Deleted && HasFinalizers(r.metadata) then Modified else ReaderType(r)
  }

  /** The consumer: Added and Modified store the object, Deleted drops it. */
  function Consume(cache: map<Key, Row>, e: Event): map<Key, Row> {
    if RelayType(e.row).Deleted? then cache - {e.key} else cache[e.key := e.row]
  }

  function Drain(cache: map<Key, Row>, queue: seq<Event>): map<Key, Row>
    decreases |queue|
  {
    if queue == [] then cache else Drain(Consume(cache, queue[0]), queue[1..])
  }

  predicate Selected(rows: map<Key, Row>, sc: Scope, hwm: nat, k: Key) {
    k in rows && InScope(sc, k) && rows[k].stamp > hwm
  }

  /** `items` is a query's result: each wanted row once, ordered by stamp. */
  ghost predicate Presents(db: Db, wanted: set<Key>, items: seq<Event>) {
    && (forall i :: 0 <= i < |items| ==>
          && items[i].key in wanted && items[i].key in db.rows && items[i].row == db.rows[items[i].key]
          && items[i].at + 1 == |HistoryOf(db, items[i].key)|)
    && (forall k :: k in wanted ==> exists i :: 0 <= i < |items| && items[i].key == k)
    && (forall i, j :: 0 <= i < j < |items| ==> items[i].key != items[j].key)
    && (forall i, j :: 0 <= i < j < |items| ==> items[i].row.stamp <= items[j].row.stamp)
  }

  /** The rows a poll asks for. */
  function Due(rows: map<Key, Row>, sc: Scope, hwm: nat): set<Key> {
    set k | k in rows && Selected(rows, sc, hwm, k)
  }

  /** An answer to the poll query. */
  ghost predicate IsAnswer(db: Db, sc: Scope, hwm: nat, ans: seq<Event>) {
    Presents(db, Due(db.rows, sc, hwm), ans)
  }

  /** A result of List. */
  ghost predicate IsListing(db: Db, sc: Scope, items: seq<Event>) {
    Presents(db, View(db.rows, sc).Keys, items)
  }

  /** One informer.  `queue` is the channel from the poller to the relay, `rv` the
      version the relay stamps on objects.  `snapXmin` (xmin of the last snapshot
      read), `acked` (xmin of the last snapshot after which the channel ran empty) and
      `delivered` (everything listed or relayed so far) only record the past. */
  datatype Informer = Informer(
    scope: Scope, hwm: nat, gone: bool, queue: seq<Event>, cache: map<Key, Row>, rv: nat,
    snapXmin: nat, acked: nat, delivered: seq<Event>)

  datatype System = System(db: Db, inf: Informer)

  datatype Op =
    | Store(op: DbOp)
    | Poll(answer: seq<Event>)
    | Relay
    | Relist(items: seq<Event>)
    | Resume(version: nat)

  /** The version a snapshot hands out: `xmin - 1`. */
  function Watermark(xmin: nat): nat { if xmin > 0 then xmin - 1 else 0 }

  /** The high-water mark after a poll. */
  function Advance(hwm: nat, xmin: nat): nat {
    if xmin > 0 && xmin - 1 > hwm then xmin - 1 else hwm
  }

  predicate TooOld(db: Db, sc: Scope, hwm: nat) {
    sc.gvk in db.horizon && hwm < db.horizon[sc.gvk]
  }

  function Listing(db: Db, sc: Scope, delivered: seq<Event>): Informer
    requires IdsBelowNext(db)
  {
    var x := Xmin(db);
    Informer(sc, Watermark(x), false, [], View(db.rows, sc), Watermark(x), x, x, delivered)
  }

  predicate IdsBelowNext(db: Db) { forall y :: y in db.open ==> y < db.next }

  ghost predicate CanStep(s: System, op: Op) {
    && IdsBelowNext(s.db)
    && match op
       case Store(o) => Enabled(s.db, o)
       case Poll(answer) => !s.inf.gone && IsAnswer(s.db, s.inf.scope, s.inf.hwm, answer)
       case Relay => s.inf.queue != []
       case Relist(items) => IsListing(s.db, s.inf.scope, items)
       case Resume(version) => true
  }

  function Polled(inf: Informer, xmin: nat, answer: seq<Event>): Informer {
    var queue := inf.queue + answer;
    inf.(hwm := Advance(inf.hwm, xmin), queue := queue, snapXmin := xmin,
         acked := if queue == [] then xmin else inf.acked)
  }

  function Relayed(inf: Informer): Informer
    requires inf.queue != []
  {
    var e := inf.queue[0];
    inf.(queue := inf.queue[1..], cache := Consume(inf.cache, e),
         rv := Max(inf.rv, e.row.stamp),
         acked := if |inf.queue| == 1 then inf.snapXmin else inf.acked,
         delivered := inf.delivered + [e])
  }

  ghost function Step(s: System, op: Op): System
    requires CanStep(s, op)
  {
    match op
    case Store(o) => s.(db := Apply(s.db, o))
    case Poll(answer) =>
      if TooOld(s.db, s.inf.scope, s.inf.hwm) then s.(inf := s.inf.(gone := true))
      else s.(inf := Polled(s.inf, Xmin(s.db), answer))
    case Relay => s.(inf := Relayed(s.inf))
    case Relist(items) => s.(inf := Listing(s.db, s.inf.scope, s.inf.delivered + items))
    case Resume(version) =>
      s.(inf := s.inf.(hwm := version, gone := false, queue := [], rv := version, snapXmin := s.inf.acked))
  }

  // ---- What a consumer's cache may lack ----

  /** The cache holds exactly what `row` calls for at `k`. */
  predicate Reflects(cache: map<Key, Row>, k: Key, row: Row) {
    if Listed(row) then k in cache && cache[k] == row else k !in cache
  }

  /** Everything stamped at or below `mark` is in the cache, and nothing without a row is. */
  ghost predicate UpToDate(db: Db, sc: Scope, cache: map<Key, Row>, mark: nat) {
    && (forall k :: k in cache ==> InScope(sc, k) && k in db.rows)
    && (forall k :: k in db.rows && InScope(sc, k) && db.rows[k].stamp <= mark ==> Reflects(cache, k, db.rows[k]))
  }

  /** The scope owns no namespace at all. */
  ghost predicate Vacant(sc: Scope) { forall ns :: !sc.owns(ns) }

  /** Id `y` may still commit, under its own stamp, a change that concerns the scope: it
      is not yet issued, has not written yet, or has written a row that is listed or
      replaces one that is listed or cached. */
  ghost predicate MaySlip(db: Db, sc: Scope, cache: map<Key, Row>, y: nat) {
    if y !in db.open then y >= db.next && !Vacant(sc)
    else
      match db.open[y]
      case Idle => !Vacant(sc)
      case Wrote(k, row) =>
        InScope(sc, k) && (Listed(row) || k in cache || (k in db.rows && Listed(db.rows[k])))
      case Compacting(_) => false
  }

  ghost predicate NoneSlips(db: Db, sc: Scope, cache: map<Key, Row>, mark: nat) {
    forall y: nat :: y <= mark ==> !MaySlip(db, sc, cache, y)
  }

  /** Polling from `mark` misses nothing: it is refused, or all at or below the mark is
      in the cache and nothing can still slip in there. */
  ghost predicate Complete(db: Db, sc: Scope, cache: map<Key, Row>, mark: nat) {
    TooOld(db, sc, mark) || (UpToDate(db, sc, cache, mark) && NoneSlips(db, sc, cache, mark))
  }

  /** The invariant of every run. */
  ghost predicate Sound(s: System) {
    Consistent(s.db) && Complete(s.db, s.inf.scope, Drain(s.inf.cache, s.inf.queue), s.inf.hwm)
  }

  // ---- Draining the channel ----

  lemma {:induction false} DrainConcat(cache: map<Key, Row>, a: seq<Event>, b: seq<Event>)
    ensures Drain(cache, a + b) == Drain(Drain(cache, a), b)
    decreases |a|
  {
    if a == [] {
      assert a + b == b;
    } else {
      assert (a + b)[0] == a[0] && (a + b)[1..] == a[1..] + b;
      DrainConcat(Consume(cache, a[0]), a[1..], b);
    }
  }

  /** Events about distinct keys act independently. */
  lemma {:induction false} DrainDistinct(cache: map<Key, Row>, q: seq<Event>)
    requires forall i, j :: 0 <= i < j < |q| ==> q[i].key != q[j].key
    requires forall e :: e in q ==> ClientMade(e.row.metadata)
    ensures forall i :: 0 <= i < |q| ==> Reflects(Drain(cache, q), q[i].key, q[i].row)
    ensures forall k :: (forall i :: 0 <= i < |q| ==> q[i].key != k) ==>
              (k in Drain(cache, q) <==> k in cache) && (k in cache ==> Drain(cache, q)[k] == cache[k])
    decreases |q|
  {
    if q == [] {
    } else {
      var c := Consume(cache, q[0]);
      DrainDistinct(c, q[1..]);
      assert Reflects(c, q[0].key, q[0].row);
      assert forall i :: 0 <= i < |q[1..]| ==> q[1..][i] == q[i + 1];
      forall i | 0 <= i < |q|
        ensures Reflects(Drain(cache, q), q[i].key, q[i].row)
      {
        if i > 0 {
          assert q[i] == q[1..][i - 1];
        }
      }
    }
  }

  // ---- Every step keeps the invariant ----

  lemma StoreKeepsTooOld(db: Db, op: DbOp, sc: Scope, mark: nat)
    requires Consistent(db) && Enabled(db, op) && TooOld(db, sc, mark)
    ensures TooOld(Apply(db, op), sc, mark)
  {
    if op.Commit? && db.open[op.xid].Compacting? {
      RaiseIsLeastCover(db.horizon, db.rows, db.open[op.xid].keys);
      assert HorizonOf(db.horizon, sc.gvk) <= HorizonOf(Apply(db, op).horizon, sc.gvk);
    }
  }

  /** A removed row that is still cached lies above the mark, and the horizon with it. */
  lemma RemovedIsRefused(db: Db, x: nat, sc: Scope, cache: map<Key, Row>, mark: nat, k: Key)
    requires LocksOk(db) && UpToDate(db, sc, cache, mark) && Enabled(db, Commit(x))
    requires db.open[x].Compacting? && k in db.open[x].keys && k in cache
    ensures TooOld(Apply(db, Commit(x)), sc, mark)
  {
    RaiseIsLeastCover(db.horizon, db.rows, db.open[x].keys);
    assert IsTombstone(db.rows[k]) && !Reflects(cache, k, db.rows[k]);
  }

  lemma CompactionKeepsUpToDate(db: Db, x: nat, sc: Scope, cache: map<Key, Row>, mark: nat)
    requires LocksOk(db) && UpToDate(db, sc, cache, mark)
    requires x in db.open && db.open[x].Compacting? && Enabled(db, Commit(x))
    ensures var db' := Apply(db, Commit(x)); TooOld(db', sc, mark) || UpToDate(db', sc, cache, mark)
  {
    var keys := db.open[x].keys;
    if k :| k in cache && k in keys {
      RemovedIsRefused(db, x, sc, cache, mark, k);
    } else {
      assert Apply(db, Commit(x)).rows == db.rows - (set k | k in keys);
    }
  }

  lemma WriteKeepsUpToDate(db: Db, x: nat, sc: Scope, cache: map<Key, Row>, mark: nat)
    requires Consistent(db) && UpToDate(db, sc, cache, mark) && NoneSlips(db, sc, cache, mark)
    requires x in db.open && db.open[x].Wrote?
    ensures UpToDate(Apply(db, Commit(x)), sc, cache, mark)
  {
    var k, row := db.open[x].key, db.open[x].row;
    if x <= mark && InScope(sc, k) {
      assert !MaySlip(db, sc, cache, x);
      assert Reflects(cache, k, row);
    }
  }

  /** A row stays as it is while a writer holds its lock. */
  lemma LockedRowStays(db: Db, x: nat, y: nat)
    requires LocksOk(db) && Enabled(db, Commit(x)) && y in db.open && db.open[y].Wrote? && y != x
    ensures Lookup(Apply(db, Commit(x)), db.open[y].key) == Lookup(db, db.open[y].key)
  {
    assert Touches(db.open[y], db.open[y].key);
    assert !Touches(db.open[x], db.open[y].key);
  }

  /** An id that was not open before was just issued; one that has written stays as it is. */
  lemma OpenAfter(db: Db, op: DbOp, y: nat)
    requires IdsOk(db) && Enabled(db, op) && y in Apply(db, op).open
    ensures y !in db.open ==> y == db.next && Apply(db, op).open[y].Idle?
    ensures y in db.open && !db.open[y].Idle? ==> Apply(db, op).open[y] == db.open[y] && !(op.Commit? && op.xid == y)
  {
    match op
    case Suppress(_) =>
    case Begin =>
    case Upserting(_, _, _, _) =>
    case Compact(_, _, _) =>
    case Commit(_) =>
    case Abort(_) =>
  }

  lemma RowsChangeAtCommit(db: Db, op: DbOp)
    requires Enabled(db, op) && !op.Commit?
    ensures Apply(db, op).rows == db.rows
  {
    match op
    case Suppress(_) =>
    case Begin =>
    case Upserting(_, _, _, _) =>
    case Compact(_, _, _) =>
    case Abort(_) =>
  }

  lemma StoreKeepsNoneSlips(db: Db, op: DbOp, sc: Scope, cache: map<Key, Row>, y: nat)
    requires Consistent(db) && Enabled(db, op) && !MaySlip(db, sc, cache, y)
    ensures !MaySlip(Apply(db, op), sc, cache, y)
  {
    if y in Apply(db, op).open {
      OpenAfter(db, op, y);
      if !op.Commit? {
        RowsChangeAtCommit(db, op);
      } else if y in db.open && db.open[y].Wrote? {
        LockedRowStays(db, op.xid, y);
      }
    } else {
      assert y in db.open ==> y < db.next;
      assert db.next <= Apply(db, op).next;
    }
  }

  lemma StoreSound(s: System, op: DbOp)
    requires Sound(s) && CanStep(s, Store(op))
    ensures Sound(Step(s, Store(op)))
  {
    var db, sc, cache, mark := s.db, s.inf.scope, Drain(s.inf.cache, s.inf.queue), s.inf.hwm;
    ConsistentStep(db, op);
    if TooOld(db, sc, mark) {
      StoreKeepsTooOld(db, op, sc, mark);
    } else {
      forall y: nat | y <= mark
        ensures !MaySlip(Apply(db, op), sc, cache, y)
      {
        StoreKeepsNoneSlips(db, op, sc, cache, y);
      }
      StoreKeepsUpToDate(db, op, sc, cache, mark);
    }
  }

  lemma StoreKeepsUpToDate(db: Db, op: DbOp, sc: Scope, cache: map<Key, Row>, mark: nat)
    requires Consistent(db) && Enabled(db, op) && UpToDate(db, sc, cache, mark) && NoneSlips(db, sc, cache, mark)
    ensures var db' := Apply(db, op); TooOld(db', sc, mark) || UpToDate(db', sc, cache, mark)
  {
    if op.Commit? && db.open[op.xid].Compacting? {
      CompactionKeepsUpToDate(db, op.xid, sc, cache, mark);
    } else if op.Commit? && db.open[op.xid].Wrote? {
      WriteKeepsUpToDate(db, op.xid, sc, cache, mark);
    } else {
      assert Apply(db, op).rows == db.rows;
    }
  }

  /** What an answer leaves in a cache that lacked nothing but the rows it holds. */
  lemma AnswerCompletes(db: Db, sc: Scope, hwm: nat, before: map<Key, Row>, answer: seq<Event>, k: Key)
    requires RowsOk(db) && IsAnswer(db, sc, hwm, answer) && UpToDate(db, sc, before, hwm)
    ensures var after, view := Drain(before, answer), View(db.rows, sc);
            (k in after <==> k in view) && (k in after ==> after[k] == view[k])
  {
    assert forall e :: e in answer ==> ClientMade(e.row.metadata);
    DrainDistinct(before, answer);
    if Selected(db.rows, sc, hwm, k) {
      assert k in Due(db.rows, sc, hwm);
      var i :| 0 <= i < |answer| && answer[i].key == k;
      assert Reflects(Drain(before, answer), k, db.rows[k]);
    }
  }

  /** After a poll that is not refused, the cache with the channel drained into it is
      exactly the snapshot's view. */
  lemma PollCatchesUp(s: System, answer: seq<Event>)
    requires Sound(s) && CanStep(s, Poll(answer)) && !TooOld(s.db, s.inf.scope, s.inf.hwm)
    ensures Drain(s.inf.cache, s.inf.queue + answer) == View(s.db.rows, s.inf.scope)
  {
    var before, view := Drain(s.inf.cache, s.inf.queue), View(s.db.rows, s.inf.scope);
    DrainConcat(s.inf.cache, s.inf.queue, answer);
    forall k
      ensures k in Drain(before, answer) <==> k in view
      ensures k in Drain(before, answer) ==> Drain(before, answer)[k] == view[k]
    {
      AnswerCompletes(s.db, s.inf.scope, s.inf.hwm, before, answer, k);
    }
  }

  /** Whoever holds the whole view may poll from the snapshot's own version, or from any
      mark that nothing could slip under before. */
  lemma ViewComplete(db: Db, sc: Scope, cache: map<Key, Row>, mark: nat)
    requires Consistent(db) && forall y: nat :: y <= mark ==> y < Xmin(db) || !MaySlip(db, sc, cache, y)
    ensures Complete(db, sc, View(db.rows, sc), mark)
  {
    forall y: nat | y <= mark
      ensures !MaySlip(db, sc, View(db.rows, sc), y)
    {
      assert y < Xmin(db) || !MaySlip(db, sc, cache, y);
    }
  }

  lemma PollSound(s: System, answer: seq<Event>)
    requires Sound(s) && CanStep(s, Poll(answer))
    ensures Sound(Step(s, Poll(answer)))
  {
    if !TooOld(s.db, s.inf.scope, s.inf.hwm) {
      PollCatchesUp(s, answer);
      ViewComplete(s.db, s.inf.scope, Drain(s.inf.cache, s.inf.queue), Advance(s.inf.hwm, Xmin(s.db)));
    }
  }

  lemma RelaySound(s: System)
    requires Sound(s) && CanStep(s, Relay)
    ensures Sound(Step(s, Relay))
  {
    var inf, inf' := s.inf, Relayed(s.inf);
    assert Drain(inf.cache, inf.queue) == Drain(inf'.cache, inf'.queue);
  }

  lemma ListingSound(db: Db, sc: Scope, delivered: seq<Event>)
    requires Consistent(db)
    ensures Sound(System(db, Listing(db, sc, delivered)))
  {
    var view := View(db.rows, sc);
    assert Drain(view, []) == view;
    ViewComplete(db, sc, view, Watermark(Xmin(db)));
  }

  /** A resume is covered when polling from its version misses nothing. */
  ghost predicate Covered(s: System, op: Op) {
    op.Resume? ==> Complete(s.db, s.inf.scope, s.inf.cache, op.version)
  }

  lemma StepSound(s: System, op: Op)
    requires Sound(s) && CanStep(s, op) && Covered(s, op)
    ensures Sound(Step(s, op))
  {
    match op
    case Store(o) => StoreSound(s, o);
    case Poll(answer) => PollSound(s, answer);
    case Relay => RelaySound(s);
    case Relist(items) => ListingSound(s.db, s.inf.scope, s.inf.delivered + items);
    case Resume(version) =>
      assert Drain(s.inf.cache, []) == s.inf.cache;
  }

  // ---- Runs ----

  ghost predicate LegalRun(s: System, ops: seq<Op>)
    decreases |ops|
  {
    ops == [] || (CanStep(s, ops[0]) && LegalRun(Step(s, ops[0]), ops[1..]))
  }

  ghost function Run(s: System, ops: seq<Op>): System
    requires LegalRun(s, ops)
    decreases |ops|
  {
    if ops == [] then s else Run(Step(s, ops[0]), ops[1..])
  }

  /** Every resume of the run is covered. */
  ghost predicate CoveredRun(s: System, ops: seq<Op>)
    requires LegalRun(s, ops)
    decreases |ops|
  {
    ops == [] || (Covered(s, ops[0]) && CoveredRun(Step(s, ops[0]), ops[1..]))
  }

  /** An informer that has just listed `items`. */
  function Started(db: Db, sc: Scope, items: seq<Event>): System
    requires IdsBelowNext(db)
  {
    System(db, Listing(db, sc, items))
  }

  lemma {:induction false} RunSound(s: System, ops: seq<Op>)
    requires Sound(s) && LegalRun(s, ops) && CoveredRun(s, ops)
    ensures Sound(Run(s, ops))
    decreases |ops|
  {
    if ops == [] {
    } else {
      StepSound(s, ops[0]);
      RunSound(Step(s, ops[0]), ops[1..]);
    }
  }

  /** Steps that are neither a read nor a restart of this informer. */
  predicate Background(op: Op) { op.Store? || op.Relay? }

  lemma {:induction false} BackgroundKeepsDrained(s: System, ops: seq<Op>)
    requires LegalRun(s, ops) && forall op :: op in ops ==> Background(op)
    ensures var s' := Run(s, ops);
            Drain(s'.inf.cache, s'.inf.queue) == Drain(s.inf.cache, s.inf.queue)
    decreases |ops|
  {
    if ops == [] {
    } else {
      assert ops[0] in ops && forall op :: op in ops[1..] ==> op in ops;
      BackgroundKeepsDrained(Step(s, ops[0]), ops[1..]);
    }
  }

  /** Watch completeness.  From a table any writers and compactors could have left, an
      informer lists; then writers commit in any order, compactors run, and the informer
      polls, relays, relists and resumes from covered versions in any order.  Every poll is
      refused as gone or reads a snapshot which, once the channel has been relayed, is
      exactly what the consumer holds, however the table moved on meanwhile. */
  lemma WatchComplete(db: Db, sc: Scope, items: seq<Event>, before: seq<Op>, answer: seq<Event>, after: seq<Op>)
    requires Consistent(db) && IsListing(db, sc, items)
    requires LegalRun(Started(db, sc, items), before) && CoveredRun(Started(db, sc, items), before)
    requires var s := Run(Started(db, sc, items), before);
             CanStep(s, Poll(answer)) && LegalRun(Step(s, Poll(answer)), after)
    requires forall op :: op in after ==> Background(op)
    ensures var s := Run(Started(db, sc, items), before);
            var polled := Step(s, Poll(answer));
            var s' := Run(polled, after);
            if TooOld(s.db, s.inf.scope, s.inf.hwm) then polled.inf.gone
            else && Drain(s'.inf.cache, s'.inf.queue) == View(s.db.rows, s.inf.scope)
                 && (s'.inf.queue == [] ==> s'.inf.cache == View(s.db.rows, s.inf.scope))
  {
    ListingSound(db, sc, items);
    RunSound(Started(db, sc, items), before);
    var s := Run(Started(db, sc, items), before);
    if !TooOld(s.db, s.inf.scope, s.inf.hwm) {
      PollCatchesUp(s, answer);
    }
    BackgroundKeepsDrained(Step(s, Poll(answer)), after);
  }
}
