/** Has the applier carried out all of a set of desires? */
module DesireStatus {
  import opened Basics

  /** A desire to check; a zero time switches the staleness check off. */
  datatype Entry = Entry(name: string, updateTime: nat)

  /** One status read.  `successful` is the Successful condition, if present. */
  datatype StatusRead = Found(observed: nat, successful: Option<bool>) | NotFound | ReadError

  datatype Synced = AllSynced | AwaitingSync | SyncFailed

  /** The status was reported for a desire older than the entry's. */
  predicate Stale(e: Entry, r: StatusRead) {
    r.Found? && e.updateTime != 0 && r.observed < e.updateTime
  }

  predicate Confirmed(e: Entry, r: StatusRead) {
    r.Found? && !Stale(e, r) && r.successful == Some(true)
  }

  predicate Failing(e: Entry, r: StatusRead) {
    r.ReadError? || (r.Found? && !Stale(e, r) && r.successful == Some(false))
  }

  ghost function ConfirmedUpTo(entries: seq<Entry>, results: seq<StatusRead>, n: nat): set<nat>
    requires n <= |entries| == |results|
  {
    set i: nat | i < n && Confirmed(entries[i], results[i])
  }

  /** How many of the first `n` desires are confirmed. */
  function Tally(entries: seq<Entry>, results: seq<StatusRead>, n: nat): (c: nat)
    requires n <= |entries| == |results|
    ensures c <= n
    ensures c == n <==> forall i :: 0 <= i < n ==> Confirmed(entries[i], results[i])
    ensures c == |ConfirmedUpTo(entries, results, n)|
  {
    if n == 0 then 0
    else
      assert ConfirmedUpTo(entries, results, n)
          == ConfirmedUpTo(entries, results, n - 1)
             + if Confirmed(entries[n - 1], results[n - 1]) then {n - 1} else {};
      Tally(entries, results, n - 1) + (if Confirmed(entries[n - 1], results[n - 1]) then 1 else 0)
  }

  /** The names of those that failed, in order. */
  function Failures(entries: seq<Entry>, results: seq<StatusRead>, n: nat): (names: seq<string>)
    requires n <= |entries| == |results|
    ensures names == [] <==> forall i :: 0 <= i < n ==> !Failing(entries[i], results[i])
    ensures forall m :: m in names <==> exists i :: 0 <= i < n && Failing(entries[i], results[i]) && entries[i].name == m
  {
    if n == 0 then []
    else Failures(entries, results, n - 1)
         + (if Failing(entries[n - 1], results[n - 1]) then [entries[n - 1].name] else [])
  }

  /** The condition is true exactly when every desire is confirmed, and a failure is
      reported exactly when one failed. */
  method Check(entries: seq<Entry>, results: seq<StatusRead>)
    returns (outcome: Synced, synced: nat, failed: seq<string>)
    requires |results| == |entries|
    ensures outcome.AllSynced? <==> forall i :: 0 <= i < |entries| ==> Confirmed(entries[i], results[i])
    ensures outcome.SyncFailed? <==> exists i :: 0 <= i < |entries| && Failing(entries[i], results[i])
    ensures (forall i :: 0 <= i < |entries| ==>
               && results[i].Found? && results[i].successful == Some(true)
               && (entries[i].updateTime == 0 || entries[i].updateTime <= results[i].observed))
            <==> outcome.AllSynced?
    ensures (exists i :: 0 <= i < |entries| &&
               (results[i].ReadError?
                || (results[i].Found? && results[i].successful == Some(false)
                    && (entries[i].updateTime == 0 || entries[i].updateTime <= results[i].observed))))
            <==> outcome.SyncFailed?
    ensures (forall i :: 0 <= i < |entries| ==> results[i].NotFound?) && entries != [] ==> outcome.AwaitingSync?
    ensures synced == Tally(entries, results, |entries|) == |ConfirmedUpTo(entries, results, |entries|)|
    ensures failed == Failures(entries, results, |entries|)
  {
    synced, failed := 0, [];
    for n := 0 to |entries|
      invariant synced == Tally(entries, results, n)
      invariant failed == Failures(entries, results, n)
    {
      var e, r := entries[n], results[n];
      if r.ReadError? {
        failed := failed + [e.name];
      } else if r.Found? && !(e.updateTime != 0 && r.observed < e.updateTime) {
        if r.successful == Some(true) {
          synced := synced + 1;
        } else if r.successful == Some(false) {
          failed := failed + [e.name];
        }
      }
    }
    if failed != [] {
      outcome := SyncFailed;
    } else if synced == |entries| {
      outcome := AllSynced;
    } else {
      outcome := AwaitingSync;
    }
    assert failed != [] ==> synced != |entries| by {
      if failed != [] {
        var i :| 0 <= i < |entries| && Failing(entries[i], results[i]);
        assert !Confirmed(entries[i], results[i]);
      }
    }
  }
}
