/** The reading side as code: the list query, one poll of the watcher, and the relay. */
module Reader {
  import opened Basics
  import opened Tombstone
  import opened Rows
  import opened Database
  import opened Watch
  import opened WatchLaws

  /** The table in the order of the queries' ORDER BY, as one snapshot shows it. */
  ghost predicate IsScan(db: Db, scan: seq<Event>) { Presents(db, db.rows.Keys, scan) }

  /** `out` is the part of `scan` that satisfies `keep`, in order. */
  ghost predicate Filtered(scan: seq<Event>, out: seq<Event>, at: seq<nat>, keep: Event -> bool) {
    && |at| == |out|
    && (forall i :: 0 <= i < |at| ==> at[i] < |scan| && out[i] == scan[at[i]] && keep(out[i]))
    && (forall i, j :: 0 <= i < j < |at| ==> at[i] < at[j])
    && (forall n :: 0 <= n < |scan| && keep(scan[n]) ==> exists i :: 0 <= i < |at| && at[i] == n)
  }

  lemma FilteredMembers(scan: seq<Event>, out: seq<Event>, at: seq<nat>, keep: Event -> bool)
    requires Filtered(scan, out, at, keep)
    ensures forall e :: e in out <==> e in scan && keep(e)
  {
    forall e | e in scan && keep(e)
      ensures e in out
    {
      var n :| 0 <= n < |scan| && scan[n] == e;
      var i :| 0 <= i < |at| && at[i] == n;
      assert out[i] == e;
    }
  }

  /** The rows of a scan that a WHERE clause keeps. */
  method Select(scan: seq<Event>, keep: Event -> bool) returns (out: seq<Event>, ghost at: seq<nat>)
    ensures forall e :: e in out <==> e in scan && keep(e)
    ensures Filtered(scan, out, at, keep)
  {
    out, at := [], [];
    for n := 0 to |scan|
      invariant |at| == |out|
      invariant forall i :: 0 <= i < |at| ==> at[i] < n && out[i] == scan[at[i]] && keep(out[i])
      invariant forall i, j :: 0 <= i < j < |at| ==> at[i] < at[j]
      invariant forall m :: 0 <= m < n && keep(scan[m]) ==> exists i :: 0 <= i < |at| && at[i] == m
    {
      ghost var was := at;
      if keep(scan[n]) {
        out, at := out + [scan[n]], at + [n];
        assert at[|was|] == n;
      }
      assert forall i :: 0 <= i < |was| ==> at[i] == was[i];
    }
    FilteredMembers(scan, out, at, keep);
  }

  /** Filtering a scan by exactly the wanted keys answers the query. */
  lemma FilteringPresents(db: Db, wanted: set<Key>, scan: seq<Event>, rows: seq<Event>, at: seq<nat>, keep: Event -> bool)
    requires IsScan(db, scan) && Filtered(scan, rows, at, keep) && wanted <= db.rows.Keys
    requires forall n :: 0 <= n < |scan| ==> (keep(scan[n]) <==> scan[n].key in wanted)
    ensures Presents(db, wanted, rows)
  {
    FilteringKeepsOrder(db, scan, rows, at, keep);
    forall k | k in wanted
      ensures exists i :: 0 <= i < |rows| && rows[i].key == k
    {
      FilteringFinds(db, scan, rows, at, keep, k);
    }
    forall i | 0 <= i < |rows|
      ensures rows[i].key in wanted && rows[i].row == db.rows[rows[i].key]
      ensures rows[i].at + 1 == |HistoryOf(db, rows[i].key)|
    {
      assert rows[i] == scan[at[i]] && keep(rows[i]);
    }
  }

  /** A filtered scan still holds each key once and in stamp order. */
  lemma FilteringKeepsOrder(db: Db, scan: seq<Event>, rows: seq<Event>, at: seq<nat>, keep: Event -> bool)
    requires IsScan(db, scan) && Filtered(scan, rows, at, keep)
    ensures forall i, j :: 0 <= i < j < |rows| ==> rows[i].key != rows[j].key && rows[i].row.stamp <= rows[j].row.stamp
  {
    forall i, j | 0 <= i < j < |rows|
      ensures rows[i].key != rows[j].key && rows[i].row.stamp <= rows[j].row.stamp
    {
      assert rows[i] == scan[at[i]] && rows[j] == scan[at[j]] && at[i] < at[j];
    }
  }

  /** Every row of the table that satisfies the clause is there. */
  lemma FilteringFinds(db: Db, scan: seq<Event>, rows: seq<Event>, at: seq<nat>, keep: Event -> bool, k: Key)
    requires IsScan(db, scan) && Filtered(scan, rows, at, keep) && k in db.rows
    requires forall n :: 0 <= n < |scan| && scan[n].key == k ==> keep(scan[n])
    ensures exists i :: 0 <= i < |rows| && rows[i].key == k
  {
    var n :| 0 <= n < |scan| && scan[n].key == k;
    var i :| 0 <= i < |at| && at[i] == n;
    assert rows[i].key == k;
  }

  /** The clauses, limit and offset a caller adds; an offset counts only with a limit. */
  datatype ListFilter = ListFilter(clauses: (Key, Row) -> bool, limit: int, offset: int)

  /** The rows of the view that satisfy the caller's clauses. */
  ghost function Wanted(db: Db, sc: Scope, filter: ListFilter): set<Key> {
    set k | k in View(db.rows, sc) && filter.clauses(k, db.rows[k])
  }

  /** `LIMIT` and `OFFSET`. */
  function Page<T>(all: seq<T>, limit: int, offset: int): (page: seq<T>)
    ensures limit <= 0 ==> page == all
    ensures limit > 0 ==>
              && |page| == Min(limit, Max(0, |all| - Max(0, offset)))
              && forall i :: 0 <= i < |page| ==> Max(0, offset) + i < |all| && page[i] == all[Max(0, offset) + i]
  {
    if limit <= 0 then all
    else
      var from := if offset <= 0 then 0 else if offset < |all| then offset else |all|;
      all[from..if from + limit < |all| then from + limit else |all|]
  }

  /** List: one page of the snapshot's live and dying rows of the scope that satisfy the
      clauses, each once, ordered by stamp, with the version every id up to which had
      finished.  Without clauses and limit it is a whole listing. */
  method List(ghost db: Db, sc: Scope, filter: ListFilter, scan: seq<Event>, xmin: nat)
    returns (items: seq<Event>, version: nat, ghost all: seq<Event>)
    requires Consistent(db) && IsScan(db, scan) && xmin == Xmin(db)
    ensures Presents(db, Wanted(db, sc, filter), all)
    ensures items == Page(all, filter.limit, filter.offset)
    ensures filter.limit <= 0 && Wanted(db, sc, filter) == View(db.rows, sc).Keys ==> IsListing(db, sc, items)
    ensures AllFinished(db, version) && !AllFinished(db, version + 1)
  {
    version := 0;
    if xmin > 0 {
      version := xmin - 1;
    }
    AllFinishedIffBelowXmin(db, version);
    AllFinishedIffBelowXmin(db, version + 1);
    var keep := (e: Event) =>
      InScope(sc, e.key) && Tombstone.ListFilter(e.row.deletion, e.row.metadata).True3? && filter.clauses(e.key, e.row);
    ghost var at;
    items, at := Select(scan, keep);
    all := items;
    FilteringPresents(db, Wanted(db, sc, filter), scan, items, at, keep);
    items := Page(items, filter.limit, filter.offset);
  }

  datatype ReaderEvent = ReaderEvent(kind: EventType, event: Event)

  datatype PollResult = Gone | Events(events: seq<ReaderEvent>)

  function Payload(events: seq<ReaderEvent>): (out: seq<Event>)
    ensures |out| == |events| && forall i :: 0 <= i < |out| ==> out[i] == events[i].event
  {
    seq(|events|, i requires 0 <= i < |events| => events[i].event)
  }

  /** Give each row of an answer its reader event type. */
  method Classify(rows: seq<Event>) returns (events: seq<ReaderEvent>)
    ensures Payload(events) == rows
    ensures forall i :: 0 <= i < |events| ==> events[i].kind == ReaderType(events[i].event.row)
  {
    events := [];
    for n := 0 to |rows|
      invariant |events| == n
      invariant forall i :: 0 <= i < n ==> events[i].event == rows[i] && events[i].kind == ReaderType(rows[i].row)
    {
      var row := rows[n].row;
      var kind;
      if row.deletion.Some? {
        kind := Deleted;
      } else if row.version == 1 {
        kind := Added;
      } else {
        kind := Modified;
      }
      events := events + [ReaderEvent(kind, rows[n])];
    }
  }

  class Watcher {
    const scope: Scope
    var hwm: nat

    constructor (scope: Scope, start: nat)
      ensures this.scope == scope && hwm == start
    {
      this.scope := scope;
      hwm := start;
    }

    /** One poll: refused when the horizon has passed the mark, otherwise an answer to
        the poll query and a mark moved to `xmin - 1`, never back. */
    method PollAll(ghost db: Db, scan: seq<Event>, xmin: nat, compacted: Option<nat>)
      returns (r: PollResult)
      requires Consistent(db) && HorizonCovers(db) && HorizonTight(db) && IsScan(db, scan) && xmin == Xmin(db)
      requires compacted == if scope.gvk in db.horizon then Some(db.horizon[scope.gvk]) else None
      modifies this
      ensures r.Gone? <==> TooOld(db, scope, old(hwm))
      ensures r.Gone? <==> CompactedAbove(db, scope.gvk, old(hwm))
      ensures r.Gone? ==> hwm == old(hwm)
      ensures r.Events? ==>
                && IsAnswer(db, scope, old(hwm), Payload(r.events))
                && (forall i :: 0 <= i < |r.events| ==> r.events[i].kind == ReaderType(r.events[i].event.row))
                && hwm == Advance(old(hwm), xmin)
    {
      HorizonAboveIff(db, scope.gvk, hwm);
      if compacted.Some? && hwm < compacted.value {
        return Gone;
      }
      var mark, sc := hwm, scope;
      var rows, at := Select(scan, (e: Event) => InScope(sc, e.key) && e.row.stamp > mark);
      var events := Classify(rows);
      SelectedIsAnswer(db, sc, mark, scan, rows, at);
      if xmin > 0 && xmin - 1 > hwm {
        hwm := xmin - 1;
      }
      r := Events(events);
    }
  }

  lemma SelectedIsAnswer(db: Db, sc: Scope, mark: nat, scan: seq<Event>, rows: seq<Event>, at: seq<nat>)
    requires IsScan(db, scan)
    requires Filtered(scan, rows, at, (e: Event) => InScope(sc, e.key) && e.row.stamp > mark)
    ensures IsAnswer(db, sc, mark, rows)
  {
    FilteringPresents(db, Due(db.rows, sc, mark), scan, rows, at,
                      (e: Event) => InScope(sc, e.key) && e.row.stamp > mark);
  }

  /** An object as the consumer gets it: the version string's two parts ride along. */
  datatype WatchEvent = WatchEvent(kind: EventType, key: Key, row: Row, watermark: nat, objectVersion: int)

  function Received(cache: map<Key, Row>, out: seq<WatchEvent>): map<Key, Row>
    decreases |out|
  {
    if out == [] then cache
    else
      var e := out[0];
      Received(if e.kind.Deleted? then cache - {e.key} else cache[e.key := e.row], out[1..])
  }

  /** `w` is the event `e` as the consumer should get it. */
  predicate Forwards(w: WatchEvent, e: Event, watermark: nat) {
    && w.kind == RelayType(e.row) && w.key == e.key && w.row == e.row
    && w.objectVersion == e.row.version && w.watermark == watermark
  }

  class RelayLoop {
    var watermark: nat

    constructor (start: nat)
      ensures watermark == start
    {
      watermark := start;
    }

    /** Forward a batch: each event gets its own type and object version and the largest
        stamp forwarded so far.  An event that cannot be converted ends the watch. */
    method Forward(events: seq<ReaderEvent>, converts: Event -> bool)
      returns (out: seq<WatchEvent>, failed: bool)
      requires forall i :: 0 <= i < |events| ==> events[i].kind == ReaderType(events[i].event.row)
      modifies this
      ensures |out| <= |events|
      ensures failed <==> |out| < |events|
      ensures failed ==> !converts(events[|out|].event)
      ensures watermark == MarkAt(old(watermark), Payload(events), |out|)
      ensures forall i :: 0 <= i < |out| ==> converts(events[i].event)
      ensures forall i {:trigger out[i]} :: 0 <= i < |out| ==>
                Forwards(out[i], events[i].event, MarkAt(old(watermark), Payload(events), i + 1))
    {
      out := [];
      ghost var payload := Payload(events);
      for n := 0 to |events|
        invariant |out| == n
        invariant watermark == MarkAt(old(watermark), payload, n)
        invariant forall i :: 0 <= i < n ==> converts(events[i].event)
        invariant forall i {:trigger out[i]} :: 0 <= i < n ==>
                    Forwards(out[i], payload[i], MarkAt(old(watermark), payload, i + 1))
      {
        var e := events[n].event;
        if !converts(e) {
          return out, true;
        }
        if e.row.stamp > watermark {
          watermark := e.row.stamp;
        }
        var kind := events[n].kind;
        if kind.Deleted? && HasFinalizers(e.row.metadata) {
          kind := Modified;
        }
        out := out + [WatchEvent(kind, e.key, e.row, watermark, e.row.version)];
      }
      failed := false;
    }
  }

  /** What the relay forwards has on a consumer the effect the protocol assumes. */
  lemma {:induction false} ForwardingDrains(cache: map<Key, Row>, q: seq<Event>, out: seq<WatchEvent>)
    requires |out| == |q|
    requires forall i :: 0 <= i < |q| ==>
               out[i].kind == RelayType(q[i].row) && out[i].key == q[i].key && out[i].row == q[i].row
    ensures Received(cache, out) == Drain(cache, q)
    decreases |q|
  {
    if q == [] {
    } else {
      assert forall i :: 0 <= i < |q[1..]| ==> q[1..][i] == q[i + 1] && out[1..][i] == out[i + 1];
      ForwardingDrains(Consume(cache, q[0]), q[1..], out[1..]);
    }
  }
}
