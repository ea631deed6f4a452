/** When an object counts as fully deleted.

    A stored row is live, dying (deletion timestamp set, finalizers left) or a
    tombstone.  Four SQL filters and one Go function decide this independently;
    the lemmas say where they agree.  SQL comparisons with NULL are Unknown, and a
    WHERE clause keeps a row only when it evaluates to True. */
module Tombstone {
  import opened Basics

  /** What `metadata->'finalizers'` holds.  `Malformed` is any JSON value that
      encoding/json cannot decode into a list of strings. */
  datatype Finalizers = Absent | JsonNull | Names(names: seq<string>) | Malformed

  /** The metadata column: the finalizers field, everything else as one opaque
      value, and whether the rest decodes into the stored-metadata struct. */
  datatype Metadata = Metadata(finalizers: Finalizers, rest: string, restDecodes: bool)

  datatype Truth = True3 | False3 | Unknown

  function Lift(b: bool): Truth { if b then True3 else False3 }

  function Or3(a: Truth, b: Truth): Truth {
    if a.True3? || b.True3? then True3
    else if a.Unknown? || b.Unknown? then Unknown
    else False3
  }

  function And3(a: Truth, b: Truth): Truth {
    if a.False3? || b.False3? then False3
    else if a.Unknown? || b.Unknown? then Unknown
    else True3
  }

  function Not3(a: Truth): Truth {
    match a
    case True3 => False3
    case False3 => True3
    case Unknown => Unknown
  }

  /** `metadata->'finalizers' = '[]'::jsonb`; NULL when the field is absent. */
  function EqualsEmptyArray(m: Metadata): Truth {
    match m.finalizers
    case Absent => Unknown
    case JsonNull => False3
    case Names(names) => Lift(names == [])
    case Malformed => False3
  }

  function ListFilter(deletion: Option<int>, m: Metadata): Truth {
    Or3(Lift(deletion.None?), Not3(EqualsEmptyArray(m)))
  }

  function ReadCurrentFilter(deletion: Option<int>, m: Metadata): Truth {
    Or3(Lift(deletion.None?), And3(Lift(!m.finalizers.Absent?), Not3(EqualsEmptyArray(m))))
  }

  /** The age-independent part of the compactor's filter. */
  function CompactFilter(deletion: Option<int>, m: Metadata): Truth {
    And3(Lift(deletion.Some?), Or3(Lift(m.finalizers.Absent?), EqualsEmptyArray(m)))
  }

  function RevivalFilter(deletion: Option<int>, m: Metadata): Truth {
    And3(Lift(deletion.Some?), Or3(Lift(m.finalizers.Absent?), EqualsEmptyArray(m)))
  }

  /** Go: decode the metadata and look at the finalizer list; any decoding error
      counts as "no finalizers". */
  predicate HasFinalizers(m: Metadata) {
    m.restDecodes && m.finalizers.Names? && m.finalizers.names != []
  }

  predicate IsFullyDeleted(deletion: Option<int>, m: Metadata) {
    deletion.Some? && !HasFinalizers(m)
  }

  /** Encoding of an object's metadata: an empty finalizer list is omitted. */
  function ExtractMetadata(finalizers: seq<string>, rest: string): (m: Metadata)
    ensures ClientMade(m)
    ensures HasFinalizers(m) <==> finalizers != []
    ensures finalizers == if m.finalizers.Names? then m.finalizers.names else []
  {
    Metadata(if finalizers == [] then Absent else Names(finalizers), rest, true)
  }

  /** Metadata that `ExtractMetadata` can produce. */
  predicate ClientMade(m: Metadata) {
    m.restDecodes && (m.finalizers.Absent? || (m.finalizers.Names? && m.finalizers.names != []))
  }

  /** The metadata on which SQL and Go read the finalizers the same way. */
  predicate ReadsAlike(m: Metadata) {
    match m.finalizers
    case Absent => true
    case Names(names) => names == [] || m.restDecodes
    case JsonNull => false
    case Malformed => false
  }

  /** The four SQL filters split every row the same way, for any metadata at all. */
  lemma SqlFiltersAgree(deletion: Option<int>, m: Metadata)
    ensures ListFilter(deletion, m).True3? <==> ReadCurrentFilter(deletion, m).True3?
    ensures ListFilter(deletion, m).True3? <==> !RevivalFilter(deletion, m).True3?
    ensures CompactFilter(deletion, m).True3? <==> RevivalFilter(deletion, m).True3?
  {
  }

  /** Go agrees with SQL on a deleted row exactly when the metadata reads alike. */
  lemma GoAgreesWithSqlIff(deletion: Option<int>, m: Metadata)
    ensures (IsFullyDeleted(deletion, m) <==> !ListFilter(deletion, m).True3?)
            <==> (deletion.None? || ReadsAlike(m))
  {
  }

  /** A JSON null in the finalizers field splits the two: listed, yet hidden from Get. */
  lemma JsonNullDisagrees()
    ensures var m := Metadata(JsonNull, "", true);
            ListFilter(Some(1), m).True3? && IsFullyDeleted(Some(1), m)
  {
  }
}
