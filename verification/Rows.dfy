/** One row of `kubernetes_resources` and what each write does to it. */
module Rows {
  import opened Basics
  import opened Tombstone

  /** The primary key. */
  datatype Key = Key(gvk: string, ns: string, name: string)

  /** JSON columns are opaque values: equality stands for JSON equality. */
  datatype Row = Row(
    uid: nat, stamp: nat, version: int,
    spec: string, status: string, metadata: Metadata,
    deletion: Option<int>, created: int, updated: int)

  /** The three write requests.  A nil status in `Write` is `None`. */
  datatype Request =
    | Write(key: Key, spec: string, status: Option<string>, metadata: Metadata,
            deletion: Option<int>, expected: int, force: bool)
    | WriteStatus(key: Key, newStatus: string, expected: int, force: bool)
    | WriteObject(key: Key, spec: string, metadata: Metadata,
                  deletion: Option<int>, expected: int, force: bool)

  datatype Verdict =
    | Put(row: Row)
    | Conflict
    | AlreadyExists
    | NotNullViolation
    | VersionRequired

  predicate Listed(r: Row) { ListFilter(r.deletion, r.metadata).True3? }

  predicate IsTombstone(r: Row) { RevivalFilter(r.deletion, r.metadata).True3? }

  /** The compactor's whole filter; `cutoff` is now minus the retention. */
  predicate Compactable(r: Row, cutoff: int) {
    && CompactFilter(r.deletion, r.metadata).True3?
    && r.deletion.Some?
    && Max(r.deletion.value, r.updated) < cutoff
  }

  /** The content check that lets a write be skipped. */
  predicate ContentEqual(r: Row, req: Request) {
    match req
    case Write(_, spec, status, metadata, deletion, _, _) =>
      r.spec == spec && status == Some(r.status) && r.metadata == metadata && r.deletion == deletion
    case WriteStatus(_, newStatus, _, _) =>
      r.status == newStatus
    case WriteObject(_, spec, metadata, deletion, _, _) =>
      r.spec == spec && r.metadata == metadata && r.deletion == deletion
  }

  predicate Suppressed(current: Option<Row>, req: Request) {
    !req.force && current.Some? && ContentEqual(current.value, req)
  }

  /** The upsert statement of a write, run by transaction `xid` on the committed row.
      `uid` is the fresh identifier an insert or a revival would take. */
  function Upsert(current: Option<Row>, req: Request, xid: nat, uid: nat, now: int): Verdict {
    match req
    case Write(_, spec, status, metadata, deletion, expected, _) =>
      if expected == 0 then
        if status.None? then NotNullViolation
        else if current.None? then
          Put(Row(uid, xid, 1, spec, status.value, metadata, deletion, now, now))
        else if IsTombstone(current.value) then
          Put(Row(uid, xid, 1, spec, status.value, metadata, None, now, now))
        else AlreadyExists
      else if current.Some? && current.value.version == expected then
        var r := current.value;
        Put(r.(stamp := xid, version := r.version + 1, spec := spec,
               status := if status.Some? then status.value else r.status,
               metadata := metadata, deletion := deletion, updated := now))
      else Conflict
    case WriteStatus(_, newStatus, expected, _) =>
      if expected == 0 then VersionRequired
      else if current.Some? && current.value.version == expected then
        var r := current.value;
        Put(r.(stamp := xid, version := r.version + 1, status := newStatus, updated := now))
      else Conflict
    case WriteObject(_, spec, metadata, deletion, expected, _) =>
      if expected == 0 then VersionRequired
      else if current.Some? && current.value.version == expected then
        var r := current.value;
        Put(r.(stamp := xid, version := r.version + 1, spec := spec,
               metadata := metadata, deletion := deletion, updated := now))
      else Conflict
  }

  /** A create: the one write that may begin a new incarnation. */
  predicate IsCreate(req: Request) { req.Write? && req.expected == 0 }

  /** The columns the request carries hold its values. */
  predicate Carries(r: Row, req: Request) {
    && (!req.WriteStatus? ==> r.spec == req.spec && r.metadata == req.metadata && r.deletion == req.deletion)
    && (req.Write? && req.status.Some? ==> r.status == req.status.value)
    && (req.WriteStatus? ==> r.status == req.newStatus)
  }

  /** The columns the request does not carry are as before. */
  predicate Frames(before: Row, after: Row, req: Request) {
    && (req.WriteStatus? ==> after.spec == before.spec && after.metadata == before.metadata
                             && after.deletion == before.deletion)
    && (req.WriteObject? || (req.Write? && req.status.None?) ==> after.status == before.status)
    && after.uid == before.uid && after.created == before.created
  }

  /** A successful write, skipped or not, leaves what it carries in the row.  The one
      exception is a create that carries a deletion time and revives a tombstone:
      revival always clears the deletion. */
  lemma SuccessCarriesRequestIff(current: Option<Row>, req: Request, xid: nat, uid: nat, now: int)
    ensures Suppressed(current, req) ==> Carries(current.value, req)
    ensures var v := Upsert(current, req, xid, uid, now);
            v.Put? ==> (Carries(v.row, req) <==>
                        !(IsCreate(req) && current.Some? && req.deletion.Some?))
  {
  }

  /** An update bumps the version by one, keeps the incarnation and touches only the
      columns it carries; a status write never reaches spec, metadata or deletion, an
      object write never reaches status. */
  lemma UpdateFrames(current: Option<Row>, req: Request, xid: nat, uid: nat, now: int)
    requires !IsCreate(req)
    ensures var v := Upsert(current, req, xid, uid, now);
            v.Put? <==> current.Some? && req.expected == current.value.version && req.expected != 0
    ensures var v := Upsert(current, req, xid, uid, now);
            v.Put? ==> && Frames(current.value, v.row, req)
                       && v.row.version == req.expected + 1
                       && v.row.stamp == xid
  {
  }

  /** A write is suppressed exactly when it is not forced and the row already holds what it
      carries; a full write without a status never is. */
  lemma SuppressedIff(current: Option<Row>, req: Request)
    ensures Suppressed(current, req)
            <==> && !req.force && current.Some? && Carries(current.value, req)
                 && (req.Write? ==> req.status.Some?)
  {
  }

  /** When a write succeeds and how it fails otherwise: a create needs a status and a key that
      List does not show; any other write needs a version and the row at that version. */
  lemma EveryVerdict(current: Option<Row>, req: Request, xid: nat, uid: nat, now: int)
    ensures var v := Upsert(current, req, xid, uid, now);
            if IsCreate(req) then
              (v.NotNullViolation? <==> req.status.None?)
              && (v.AlreadyExists? <==> req.status.Some? && current.Some? && Listed(current.value))
              && (v.Put? <==> req.status.Some? && !(current.Some? && Listed(current.value)))
            else
              (v.VersionRequired? <==> req.expected == 0)
              && (v.Put? <==> req.expected != 0 && current.Some? && current.value.version == req.expected)
              && (v.Put? || v.VersionRequired? || v.Conflict?)
  {
    if current.Some? {
      SqlFiltersAgree(current.value.deletion, current.value.metadata);
    }
  }

  /** A successful write sets the update time; a create sets the creation time too. */
  lemma WriteTimes(current: Option<Row>, req: Request, xid: nat, uid: nat, now: int)
    ensures var v := Upsert(current, req, xid, uid, now);
            v.Put? ==> v.row.updated == now && (IsCreate(req) ==> v.row.created == now)
  {
  }

  /** Hidden from List, and both deleted and last written strictly before the cutoff. */
  predicate OldTombstone(r: Row, cutoff: int) {
    !Listed(r) && (r.deletion.Some? ==> r.deletion.value < cutoff) && r.updated < cutoff
  }

  /** The compactor takes exactly the rows that List hides and that were deleted and last
      written before the cutoff, whatever their metadata. */
  lemma CompactableIff(r: Row, cutoff: int)
    ensures Compactable(r, cutoff) <==> OldTombstone(r, cutoff)
    ensures !Listed(r) ==> r.deletion.Some?
  {
    SqlFiltersAgree(r.deletion, r.metadata);
  }

  /** One notion of "gone": for metadata made by the client, a key is hidden from List
      iff hidden from the client's own read iff hidden from Get iff a create brings it
      back with a fresh uid at version 1 iff the compactor takes it once old enough. */
  lemma OneTombstone(r: Row, req: Request, xid: nat, uid: nat, now: int)
    requires ClientMade(r.metadata)
    requires IsCreate(req) && req.status.Some?
    ensures !Listed(r) <==> IsTombstone(r)
    ensures !Listed(r) <==> !ReadCurrentFilter(r.deletion, r.metadata).True3?
    ensures !Listed(r) <==> IsFullyDeleted(r.deletion, r.metadata)
    ensures forall cutoff: int {:trigger Compactable(r, cutoff)} ::
              Compactable(r, cutoff) <==> OldTombstone(r, cutoff)
    ensures var v := Upsert(Some(r), req, xid, uid, now);
            if Listed(r) then v.AlreadyExists?
            else v.Put? && v.row.uid == uid && v.row.version == 1 && v.row.deletion.None?
  {
    forall cutoff: int
      ensures Compactable(r, cutoff) <==> OldTombstone(r, cutoff)
    {
      CompactableIff(r, cutoff);
    }
  }

  /** A create by the client carries no deletion time, so a tombstone never hides it
      behind suppression: the key is revived, not skipped. */
  lemma CreateOverTombstoneNotSuppressed(r: Row, req: Request)
    requires IsTombstone(r) && IsCreate(req) && req.deletion.None?
    ensures !Suppressed(Some(r), req)
  {
  }
}
