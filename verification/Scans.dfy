/** Every snapshot's query has a result: the wanted rows can be put in stamp order. */
module Scans {
  import opened Rows
  import opened Database
  import opened History
  import opened Watch

  lemma {:induction false} LargestStamp(rows: map<Key, Row>, keys: set<Key>) returns (k: Key)
    requires keys != {} && keys <= rows.Keys
    ensures k in keys && forall j :: j in keys ==> rows[j].stamp <= rows[k].stamp
    decreases |keys|
  {
    k :| k in keys;
    if keys == {k} {
    } else {
      var j := LargestStamp(rows, keys - {k});
      if rows[k].stamp < rows[j].stamp {
        k := j;
      }
    }
  }

  ghost predicate Ordering(rows: map<Key, Row>, keys: set<Key>, order: seq<Key>)
    requires keys <= rows.Keys
  {
    && (forall i :: 0 <= i < |order| ==> order[i] in keys)
    && (forall k :: k in keys ==> exists i :: 0 <= i < |order| && order[i] == k)
    && (forall i, j :: 0 <= i < j < |order| ==> order[i] != order[j] && rows[order[i]].stamp <= rows[order[j]].stamp)
  }

  lemma {:induction false} OrderKeys(rows: map<Key, Row>, keys: set<Key>) returns (order: seq<Key>)
    requires keys <= rows.Keys
    ensures Ordering(rows, keys, order)
    decreases |keys|
  {
    if keys == {} {
      order := [];
    } else {
      var last := LargestStamp(rows, keys);
      var rest := OrderKeys(rows, keys - {last});
      order := rest + [last];
      forall k | k in keys
        ensures exists i :: 0 <= i < |order| && order[i] == k
      {
        if k == last {
          assert order[|rest|] == k;
        } else {
          assert k in keys - {last};
          var i :| 0 <= i < |rest| && rest[i] == k;
          assert order[i] == k;
        }
      }
    }
  }

  /** Whatever rows a query wants, it can be answered. */
  lemma PresentationExists(db: Db, wanted: set<Key>) returns (items: seq<Event>)
    requires RowsAreLast(db) && wanted <= db.rows.Keys
    ensures Presents(db, wanted, items)
  {
    var order := OrderKeys(db.rows, wanted);
    items := seq(|order|, i requires 0 <= i < |order| =>
                   Event(order[i], db.rows[order[i]], |HistoryOf(db, order[i])| - 1));
    forall k | k in wanted
      ensures exists i :: 0 <= i < |items| && items[i].key == k
    {
      var i :| 0 <= i < |order| && order[i] == k;
      assert items[i].key == k;
    }
  }
}
