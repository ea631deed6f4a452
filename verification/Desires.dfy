/** The operator's client for the desire tables: upserts that skip unchanged specs,
    behind a write-through cache. */
module Desires {
  import opened Basics

  const SECOND := 1_000_000_000

  /** Times in nanoseconds; 0 stands for Go's zero time. */
  function Truncate(t: nat): nat { t / SECOND * SECOND }

  /** RFC 3339 text keeps whole seconds only. */
  function Format(t: nat): nat { t / SECOND }

  function ParseTime(seconds: nat): nat { seconds * SECOND }

  /** A stored time reads back as itself exactly when it was truncated to the second. */
  lemma StoredTimeRoundTripsIff(t: nat)
    ensures ParseTime(Format(t)) == t <==> t == Truncate(t)
    ensures ParseTime(Format(Truncate(t))) == Truncate(t)
  {
    assert Truncate(t) / SECOND == t / SECOND;
  }

  /** A spec stands for its own hash: hashes are taken to be collision-free.  An item
      written by someone else may lack the hash or a readable time. */
  datatype Item = Item(hash: Option<string>, updateTime: Option<nat>)

  datatype CacheEntry = CacheEntry(hash: string, updateTime: nat)

  datatype UpsertResult = Unchanged(time: nat) | Changed(time: nat) | Failed

  /** `table + "/" + documentID` */
  function CacheKey(table: string, doc: string): string { table + "/" + doc }

  datatype State = State(table: map<(string, string), Item>, cache: map<string, CacheEntry>)

  /** The time of an item, zero when it has none. */
  function ItemTime(i: Item): nat {
    if i.updateTime.Some? then ParseTime(i.updateTime.value) else 0
  }

  predicate Holds(i: Item, hash: string) { i.hash == Some(hash) }

  /** The outcome of the two requests an upsert may send. */
  datatype Weather = Weather(getOk: bool, putOk: bool)

  function NewItem(spec: string, now: nat): Item {
    Item(Some(spec), Some(Format(Truncate(now))))
  }

  /** An upsert without any cache: read, compare, write. */
  function Direct(table: map<(string, string), Item>, at: (string, string), spec: string, now: nat, w: Weather)
    : (map<(string, string), Item>, UpsertResult)
  {
    if !w.getOk then (table, Failed)
    else if at in table && Holds(table[at], spec) then (table, Unchanged(ItemTime(table[at])))
    else if !w.putOk then (table, Failed)
    else (table[at := NewItem(spec, now)], Changed(Truncate(now)))
  }

  /** The upsert as it is. */
  function Cached(s: State, at: (string, string), spec: string, now: nat, w: Weather): (State, UpsertResult) {
    var ck := CacheKey(at.0, at.1);
    if ck in s.cache && s.cache[ck].hash == spec then (s, Unchanged(s.cache[ck].updateTime))
    else if !w.getOk then (s, Failed)
    else if at in s.table && Holds(s.table[at], spec) then
      var t := ItemTime(s.table[at]);
      (s.(cache := s.cache[ck := CacheEntry(spec, t)]), Unchanged(t))
    else if !w.putOk then (s, Failed)
    else
      (State(s.table[at := NewItem(spec, now)], s.cache[ck := CacheEntry(spec, Truncate(now))]),
       Changed(Truncate(now)))
  }

  function Deleted(s: State, at: (string, string), ok: bool): State {
    if !ok then s
    else State(s.table - {at}, s.cache - {CacheKey(at.0, at.1)})
  }

  // ---- Cache keys ----

  /** Document ids contain no slash, so the cache key tells tables and documents apart. */
  lemma CacheKeyInjective(a: (string, string), b: (string, string))
    requires '/' !in a.1 && '/' !in b.1
    requires CacheKey(a.0, a.1) == CacheKey(b.0, b.1)
    ensures a == b
  {
    var s := CacheKey(a.0, a.1);
    assert s[|a.0|] == '/' && s[|a.0| + 1..] == a.1;
    assert s[|b.0|] == '/' && s[|b.0| + 1..] == b.1;
    assert |a.0| == |b.0|;
    assert s[..|a.0|] == a.0 && s[..|b.0|] == b.0;
  }

  // ---- The cache agrees with the table ----

  predicate ProperDoc(at: (string, string)) { '/' !in at.1 }

  /** Every cache entry is the cached form of the stored item. */
  ghost predicate Agrees(s: State) {
    forall at :: ProperDoc(at) && CacheKey(at.0, at.1) in s.cache ==>
      && at in s.table
      && s.table[at].hash == Some(s.cache[CacheKey(at.0, at.1)].hash)
      && ItemTime(s.table[at]) == s.cache[CacheKey(at.0, at.1)].updateTime
  }

  datatype Op =
    | Upsert(at: (string, string), spec: string, now: nat, w: Weather)
    | Delete(at: (string, string), ok: bool)
    | ResetCache

  function Apply(s: State, op: Op): State {
    match op
    case Upsert(at, spec, now, w) => Cached(s, at, spec, now, w).0
    case Delete(at, ok) => Deleted(s, at, ok)
    case ResetCache => s.(cache := map[])
  }

  predicate ProperOp(op: Op) { op.ResetCache? || ProperDoc(op.at) }

  lemma OtherKeysDiffer(at: (string, string))
    requires ProperDoc(at)
    ensures forall b :: ProperDoc(b) && b != at ==> CacheKey(b.0, b.1) != CacheKey(at.0, at.1)
  {
    forall b | ProperDoc(b) && b != at
      ensures CacheKey(b.0, b.1) != CacheKey(at.0, at.1)
    {
      if CacheKey(b.0, b.1) == CacheKey(at.0, at.1) {
        CacheKeyInjective(at, b);
      }
    }
  }

  lemma AgreesStep(s: State, op: Op)
    requires Agrees(s) && ProperOp(op)
    ensures Agrees(Apply(s, op))
  {
    if !op.ResetCache? {
      OtherKeysDiffer(op.at);
    }
    if op.Upsert? {
      StoredTimeRoundTripsIff(op.now);
    }
  }

  /** The cache answers without asking the table. */
  predicate Hit(s: State, at: (string, string), spec: string) {
    CacheKey(at.0, at.1) in s.cache && s.cache[CacheKey(at.0, at.1)].hash == spec
  }

  /** With the cache in agreement, an upsert writes just what it would without a cache, and
      answers the same unless the cache spares it a read that would have failed; then it
      gives the time the table holds. */
  lemma CachedUpsertRefinesDirect(s: State, at: (string, string), spec: string, now: nat, w: Weather)
    requires Agrees(s) && ProperDoc(at)
    ensures Cached(s, at, spec, now, w).0.table == Direct(s.table, at, spec, now, w).0
    ensures Cached(s, at, spec, now, w).1 == Direct(s.table, at, spec, now, w).1
            <==> w.getOk || !Hit(s, at, spec)
    ensures Hit(s, at, spec) ==> at in s.table && Cached(s, at, spec, now, w).1 == Unchanged(ItemTime(s.table[at]))
  {
  }

  function DirectApply(table: map<(string, string), Item>, op: Op): map<(string, string), Item> {
    match op
    case Upsert(at, spec, now, w) => Direct(table, at, spec, now, w).0
    case Delete(at, ok) => if ok then table - {at} else table
    case ResetCache => table
  }

  function Run(s: State, ops: seq<Op>): State
    decreases |ops|
  {
    if ops == [] then s else Run(Apply(s, ops[0]), ops[1..])
  }

  function DirectRun(table: map<(string, string), Item>, ops: seq<Op>): map<(string, string), Item>
    decreases |ops|
  {
    if ops == [] then table else DirectRun(DirectApply(table, ops[0]), ops[1..])
  }

  /** The answer to an operation; only upserts answer. */
  function Reply(s: State, op: Op): Option<UpsertResult> {
    if op.Upsert? then Some(Cached(s, op.at, op.spec, op.now, op.w).1) else None
  }

  function DirectReply(table: map<(string, string), Item>, op: Op): Option<UpsertResult> {
    if op.Upsert? then Some(Direct(table, op.at, op.spec, op.now, op.w).1) else None
  }

  function Replies(s: State, ops: seq<Op>): (r: seq<Option<UpsertResult>>)
    ensures |r| == |ops|
    decreases |ops|
  {
    if ops == [] then [] else [Reply(s, ops[0])] + Replies(Apply(s, ops[0]), ops[1..])
  }

  function DirectReplies(table: map<(string, string), Item>, ops: seq<Op>): (r: seq<Option<UpsertResult>>)
    ensures |r| == |ops|
    decreases |ops|
  {
    if ops == [] then []
    else [DirectReply(table, ops[0])] + DirectReplies(DirectApply(table, ops[0]), ops[1..])
  }

  /** The cache hides a failed read. */
  predicate Hidden(s: State, op: Op) { op.Upsert? && !op.w.getOk && Hit(s, op.at, op.spec) }

  /** Which operations of a run profit from that. */
  function HiddenIn(s: State, ops: seq<Op>): (r: seq<bool>)
    ensures |r| == |ops|
    decreases |ops|
  {
    if ops == [] then [] else [Hidden(s, ops[0])] + HiddenIn(Apply(s, ops[0]), ops[1..])
  }

  lemma StepTransparent(s: State, op: Op)
    requires Agrees(s) && ProperOp(op)
    ensures Agrees(Apply(s, op)) && Apply(s, op).table == DirectApply(s.table, op)
    ensures Reply(s, op) == DirectReply(s.table, op) <==> !Hidden(s, op)
  {
    AgreesStep(s, op);
    if op.Upsert? {
      CachedUpsertRefinesDirect(s, op.at, op.spec, op.now, op.w);
    }
  }

  /** From any agreeing state, an empty cache over any table for one, every run — failed
      reads and writes included — keeps the cache in agreement and leaves the table a client
      without a cache would leave.  Answer for answer the two clients say the same, except
      exactly where the cache hides a failed read. */
  lemma {:induction false} CacheIsTransparent(s: State, ops: seq<Op>)
    requires Agrees(s) && forall op :: op in ops ==> ProperOp(op)
    ensures Agrees(Run(s, ops)) && Run(s, ops).table == DirectRun(s.table, ops)
    ensures forall i :: 0 <= i < |ops| ==>
              (Replies(s, ops)[i] == DirectReplies(s.table, ops)[i] <==> !HiddenIn(s, ops)[i])
    decreases |ops|
  {
    if ops == [] {
    } else {
      assert ops[0] in ops && forall op :: op in ops[1..] ==> op in ops;
      StepTransparent(s, ops[0]);
      CacheIsTransparent(Apply(s, ops[0]), ops[1..]);
    }
  }

  /** When every read succeeds, the two clients cannot be told apart. */
  lemma SameAnswersWhenReadsSucceed(s: State, ops: seq<Op>)
    requires Agrees(s) && forall op :: op in ops ==> ProperOp(op) && (op.Upsert? ==> op.w.getOk)
    ensures Replies(s, ops) == DirectReplies(s.table, ops)
  {
    CacheIsTransparent(s, ops);
    NothingHidden(s, ops);
  }

  /** With every read succeeding nothing is ever hidden. */
  lemma {:induction false} NothingHidden(s: State, ops: seq<Op>)
    requires forall op :: op in ops ==> op.Upsert? ==> op.w.getOk
    ensures forall i :: 0 <= i < |ops| ==> !HiddenIn(s, ops)[i]
    decreases |ops|
  {
    if ops == [] {
    } else {
      assert ops[0] in ops && forall op :: op in ops[1..] ==> op in ops;
      NothingHidden(Apply(s, ops[0]), ops[1..]);
    }
  }

  /** What the item at `at` must be like for the answer `r` to an upsert of `spec`. */
  ghost predicate Upserted(before: map<(string, string), Item>, after: map<(string, string), Item>,
                           at: (string, string), spec: string, now: nat, r: UpsertResult)
  {
    && (forall b :: b != at ==> (b in after <==> b in before) && (b in before ==> after[b] == before[b]))
    && (if r.Failed? then after == before
        else
          && at in after && after[at].hash == Some(spec)
          && (r.Changed? <==> !(at in before && before[at].hash == Some(spec)))
          && (if r.Changed? then r.time == now / SECOND * SECOND && after[at].updateTime == Some(now / SECOND)
              else after == before && r.time == (if after[at].updateTime.Some? then after[at].updateTime.value * SECOND else 0)))
  }

  /** An upsert that answers has the spec it was given in the table, with the time it returns,
      and touches nothing else; it writes exactly when the table held no item or another spec.
      It fails only if a request does. */
  lemma UpsertTakesEffect(s: State, at: (string, string), spec: string, now: nat, w: Weather)
    requires Agrees(s) && ProperDoc(at)
    ensures Upserted(s.table, Cached(s, at, spec, now, w).0.table, at, spec, now, Cached(s, at, spec, now, w).1)
    ensures Cached(s, at, spec, now, w).1.Failed? ==> !w.getOk || !w.putOk
  {
  }

  // ---- The client as code ----

  class Client {
    var table: map<(string, string), Item>
    var cache: map<string, CacheEntry>

    constructor (table: map<(string, string), Item>)
      ensures State(this.table, cache) == State(table, map[])
    {
      this.table := table;
      cache := map[];
    }

    method UpsertDesire(at: (string, string), spec: string, now: nat, w: Weather) returns (r: UpsertResult)
      modifies this
      ensures (State(table, cache), r) == Cached(old(State(table, cache)), at, spec, now, w)
      ensures old(Agrees(State(table, cache))) && ProperDoc(at) ==> Upserted(old(table), table, at, spec, now, r)
      ensures r.Failed? ==> !w.getOk || !w.putOk
    {
      if Agrees(State(table, cache)) && ProperDoc(at) {
        UpsertTakesEffect(State(table, cache), at, spec, now, w);
      }
      var ck := CacheKey(at.0, at.1);
      if ck in cache && cache[ck].hash == spec {
        return Unchanged(cache[ck].updateTime);
      }
      if !w.getOk {
        return Failed;
      }
      if at in table && table[at].hash == Some(spec) {
        var existing := ItemTime(table[at]);
        cache := cache[ck := CacheEntry(spec, existing)];
        return Unchanged(existing);
      }
      var t := Truncate(now);
      if !w.putOk {
        return Failed;
      }
      table := table[at := Item(Some(spec), Some(Format(t)))];
      cache := cache[ck := CacheEntry(spec, t)];
      return Changed(t);
    }

    method DeleteDesireSpec(at: (string, string), ok: bool)
      modifies this
      ensures State(table, cache) == Deleted(old(State(table, cache)), at, ok)
      ensures table == (if ok then old(table) - {at} else old(table))
      ensures ok ==> CacheKey(at.0, at.1) !in cache
    {
      if !ok {
        return;
      }
      table := table - {at};
      cache := cache - {CacheKey(at.0, at.1)};
    }
  }
}
