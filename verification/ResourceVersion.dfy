/** Version strings: "12345" for a collection, "o5;12345" for one object. */
module ResourceVersion {
  import opened Basics

  /** `objectVersion` is a signed, `watermark` an unsigned 64-bit number. */
  datatype RV = RV(objectVersion: int, watermark: nat)

  const TWO_63: int := 0x8000_0000_0000_0000
  const TWO_64: int := 0x1_0000_0000_0000_0000

  predicate IsInt64(n: int) { -TWO_63 <= n < TWO_63 }

  predicate Fits(rv: RV) { IsInt64(rv.objectVersion) && rv.watermark < TWO_64 }

  // ---- Decimal numbers ----

  function FormatNat(n: nat): (s: string)
    ensures s != []
  {
    if n < 10 then ['0' + n as char] else FormatNat(n / 10) + ['0' + (n % 10) as char]
  }

  function FormatInt(n: int): string { if n < 0 then "-" + FormatNat(-n) else FormatNat(n) }

  predicate IsDigit(c: char) { '0' <= c <= '9' }

  ghost predicate AllDigits(s: string) { forall c :: c in s ==> IsDigit(c) }

  predicate Digits(s: string)
    ensures Digits(s) <==> AllDigits(s)
  {
    s == [] || (IsDigit(s[0]) && Digits(s[1..]))
  }

  function Value(s: string): nat
    requires AllDigits(s)
  {
    if s == [] then 0
    else
      assert s[|s| - 1] in s;
      Value(s[..|s| - 1]) * 10 + (s[|s| - 1] - '0') as nat
  }

  /** strconv.ParseUint(s, 10, 64) */
  function ParseUint(s: string): Option<nat> {
    if s == [] || !Digits(s) then None
    else if Value(s) >= TWO_64 then None
    else Some(Value(s))
  }

  /** strconv.ParseInt(s, 10, 64) */
  function ParseInt(s: string): Option<int> {
    if s == [] then None
    else
      var negative := s[0] == '-';
      var magnitude := ParseUint(if s[0] == '-' || s[0] == '+' then s[1..] else s);
      if magnitude.None? then None
      else if !negative && magnitude.value >= TWO_63 then None
      else if negative && magnitude.value > TWO_63 then None
      else
        var n: int := magnitude.value;
        Some(if negative then -n else n)
  }

  lemma {:induction false} FormatNatDigits(n: nat)
    ensures AllDigits(FormatNat(n)) && Value(FormatNat(n)) == n
  {
    var s := FormatNat(n);
    if n < 10 {
      assert s[..0] == [];
      assert Value(s[..0]) == 0;
    } else {
      FormatNatDigits(n / 10);
      assert s[..|s| - 1] == FormatNat(n / 10);
    }
  }

  /** A printed number parses back exactly when it fits. */
  lemma UintRoundTrip(n: nat)
    ensures ParseUint(FormatNat(n)) == if n < TWO_64 then Some(n) else None
  {
    FormatNatDigits(n);
  }

  lemma FormatNatStarts(n: nat)
    ensures IsDigit(FormatNat(n)[0])
  {
    FormatNatDigits(n);
    assert FormatNat(n)[0] in FormatNat(n);
  }

  lemma IntRoundTrip(n: int)
    ensures ParseInt(FormatInt(n)) == if IsInt64(n) then Some(n) else None
    ensures n >= 0 ==> ParseInt("+" + FormatInt(n)) == ParseInt(FormatInt(n))
  {
    if n < 0 {
      UintRoundTrip(-n);
      assert FormatInt(n)[1..] == FormatNat(-n);
    } else {
      UintRoundTrip(n);
      FormatNatStarts(n);
      assert ("+" + FormatNat(n))[1..] == FormatNat(n);
    }
  }

  // ---- The codec ----

  function ToString(rv: RV): string {
    if rv.objectVersion > 0 then
      Composite(FormatInt(rv.objectVersion), FormatNat(rv.watermark))
    else FormatNat(rv.watermark)
  }

  /** strings.IndexByte: the first position of `c`, or none. */
  function IndexOf(s: string, c: char): (i: Option<nat>)
    ensures i.Some? ==> i.value < |s| && s[i.value] == c && c !in s[..i.value]
    ensures i.None? ==> c !in s
  {
    if s == [] then None
    else if s[0] == c then Some(0)
    else
      var rest := IndexOf(s[1..], c);
      if rest.None? then None
      else
        assert s[..rest.value + 1] == [s[0]] + s[1..][..rest.value];
        Some(rest.value + 1)
  }

  function ParseWatermark(objectVersion: int, s: string): Option<RV> {
    if s != [] && s[0] == 'b' then None
    else
      var w := ParseUint(s);
      if w.None? then None else Some(RV(objectVersion, w.value))
  }

  /** None stands for the parse error. */
  function Parse(s: string): Option<RV> {
    if s == [] then Some(RV(0, 0))
    else if s[0] == 'o' then
      var semi := IndexOf(s, ';');
      if semi.None? || semi.value == 0 then None
      else
        var v := ParseInt(s[1..semi.value]);
        if v.None? then None
        else if s[semi.value + 1..] == [] then None
        else ParseWatermark(v.value, s[semi.value + 1..])
    else ParseWatermark(0, s)
  }

  function Composite(head: string, tail: string): string { "o" + head + ";" + tail }

  lemma CompositeSlices(head: string, tail: string)
    ensures var s := Composite(head, tail);
            && |s| == |head| + |tail| + 2 && s[0] == 'o' && s[1 + |head|] == ';'
            && s[1..1 + |head|] == head && s[2 + |head|..] == tail
  {
  }

  /** The first semicolon comes right after a head that has none. */
  lemma SemicolonSplits(head: string, tail: string)
    requires ';' !in head
    ensures IndexOf(Composite(head, tail), ';') == Some(1 + |head|)
    ensures Composite(head, tail)[1..1 + |head|] == head && Composite(head, tail)[2 + |head|..] == tail
  {
    var s := Composite(head, tail);
    CompositeSlices(head, tail);
    forall i | 0 <= i < 1 + |head|
      ensures s[i] != ';'
    {
      if i > 0 {
        assert s[i] == head[i - 1] && head[i - 1] in head;
      }
    }
    assert ';' in s;
    var semi := IndexOf(s, ';').value;
    forall i | 0 <= i < semi
      ensures s[i] != ';'
    {
      assert s[..semi][i] == s[i];
    }
  }

  lemma ParseComposite(v: int, w: nat)
    requires 0 < v < TWO_63 && w < TWO_64
    ensures Parse(Composite(FormatInt(v), FormatNat(w))) == Some(RV(v, w))
  {
    FormatNatDigits(v);
    FormatNatStarts(w);
    IntRoundTrip(v);
    UintRoundTrip(w);
    CompositeSlices(FormatInt(v), FormatNat(w));
    SemicolonSplits(FormatInt(v), FormatNat(w));
  }

  /** Decoding undoes encoding exactly for non-negative object versions; a negative one
      is dropped by the encoder. */
  lemma RoundTripIff(rv: RV)
    requires Fits(rv)
    ensures Parse(ToString(rv)) == Some(rv) <==> rv.objectVersion >= 0
    ensures ToString(rv) == (if rv.objectVersion > 0 then "o" + FormatNat(rv.objectVersion) + ";" else "")
                            + FormatNat(rv.watermark)
  {
    if rv.objectVersion > 0 {
      ParseComposite(rv.objectVersion, rv.watermark);
    } else {
      UintRoundTrip(rv.watermark);
      FormatNatStarts(rv.watermark);
      assert Parse(ToString(rv)) == Some(RV(0, rv.watermark));
    }
  }

  /** A watermark: digits that fit 64 bits. */
  predicate IsWatermark(s: string) { s != [] && Digits(s) && Value(s) < TWO_64 }

  /** `head` is a signed 64-bit number and `s` reads "o", `head`, ";", `tail`. */
  ghost predicate Splits(s: string, head: string, tail: string) {
    s == Composite(head, tail) && ';' !in head && ParseInt(head).Some? && IsWatermark(tail)
  }

  lemma WatermarkParses(v: int, s: string)
    ensures ParseWatermark(v, s).Some? <==> IsWatermark(s)
    ensures IsWatermark(s) ==> s[0] != 'o'
  {
    if s != [] {
      assert s[0] in s;
    }
  }

  lemma SplitParses(head: string, tail: string)
    requires ';' !in head
    ensures Parse(Composite(head, tail)).Some? <==> ParseInt(head).Some? && IsWatermark(tail)
  {
    CompositeSlices(head, tail);
    SemicolonSplits(head, tail);
    if ParseInt(head).Some? {
      WatermarkParses(ParseInt(head).value, tail);
    }
  }

  /** A string with an object version is one that splits at its first semicolon. */
  lemma FirstSplit(s: string) returns (head: string, tail: string)
    requires s != [] && s[0] == 'o' && IndexOf(s, ';').Some?
    ensures s == Composite(head, tail) && ';' !in head
  {
    var semi := IndexOf(s, ';').value;
    head, tail := s[1..semi], s[semi + 1..];
    assert s[..semi] == "o" + head;
  }

  /** Exactly three kinds of string parse: the empty one, a watermark, and an object version
      followed by a watermark.  Everything else, the old bucket format included, is refused. */
  lemma ParseAcceptsIff(s: string)
    ensures Parse(s).Some? <==> s == [] || IsWatermark(s) || exists head, tail :: Splits(s, head, tail)
  {
    WatermarkParses(0, s);
    forall head, tail | Splits(s, head, tail)
      ensures Parse(s).Some?
    {
      SplitParses(head, tail);
    }
    if s != [] && s[0] == 'o' && Parse(s).Some? {
      var head, tail := FirstSplit(s);
      SplitParses(head, tail);
      assert Splits(s, head, tail);
    }
  }

  /** The version a write expects, from the string an object carries; None is an error. */
  function ParseResourceVersion(s: string): Option<int> {
    if s == [] then Some(0)
    else
      var plain := ParseInt(s);
      if plain.Some? then plain
      else
        var rv := Parse(s);
        if rv.None? || rv.value.objectVersion == 0 then None else Some(rv.value.objectVersion)
  }

  /** A write recovers the object version from the plain form Get and List set and from
      the composite form the relay sets. */
  lemma WriteRecoversVersion(v: int, w: nat)
    requires 0 < v < TWO_63 && w < TWO_64
    ensures ParseResourceVersion(FormatInt(v)) == Some(v)
    ensures ParseResourceVersion(ToString(RV(v, w))) == Some(v)
  {
    IntRoundTrip(v);
    FormatNatStarts(v);
    ParseComposite(v, w);
    var s := ToString(RV(v, w));
    assert s[0] == 'o' && !IsDigit(s[0]) && s[0] in s;
  }

  /** A collection's version, taken for an object's, is not refused: it reads as an
      object version whenever it is small enough. */
  lemma CollectionVersionReadsAsObjects(w: nat)
    requires w < TWO_64
    ensures ParseResourceVersion(ToString(RV(0, w))) == (if w < TWO_63 then Some(w) else None)
  {
    UintRoundTrip(w);
    FormatNatStarts(w);
  }
}
