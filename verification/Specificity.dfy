/** How specific an adapter is: narrower version windows and richer declared requirements win. */
module Specificity {
  import opened Wrappers
  import opened GoText
  import opened TextOrder
  import opened Versions

  datatype DegradePolicy = DegradeNone | DegradeToReadOnly | DegradeToBasic

  datatype ClientMeta = ClientMeta(hostType: string, clientType: string, hostVersion: string,
                                   capabilities: seq<string>, adapterHint: string)

  /** What an adapter that implements AdapterMeta declares. */
  datatype AdapterMeta = AdapterMeta(versionRange: string, required: seq<string>, optional: seq<string>,
                                     degrade: DegradePolicy)

  datatype Adapter = Adapter(id: string, family: string, supports: ClientMeta -> bool, meta: Option<AdapterMeta>)

  // ---------- the rank ----------

  datatype Rank = Rank(boundCount: int, range: VersionRange, sharedPrefix: int, precision: int, required: int,
                       optional: int)

  function CommonPrefix(p: seq<int>, q: seq<int>): (n: nat)
    ensures n <= |p| && n <= |q|
    ensures p[..n] == q[..n]
    ensures n < |p| && n < |q| ==> p[n] != q[n]
  {
    if p == [] || q == [] || p[0] != q[0] then 0
    else
      assert p == [p[0]] + p[1..] && q == [q[0]] + q[1..];
      1 + CommonPrefix(p[1..], q[1..])
  }

  /** Declared segments shared by both bounds. */
  function SharedPrefix(vr: VersionRange): nat {
    if vr.min == "" || vr.max == "" then 0 else CommonPrefix(Segments(vr.min), Segments(vr.max))
  }

  method SharedVersionPrefix(left: string, right: string) returns (count: nat)
    ensures count == SharedPrefix(VersionRange(left, right))
  {
    if left == "" || right == "" {
      return 0;
    }
    var p, q := Segments(left), Segments(right);
    var limit := if |q| < |p| then |q| else |p|;
    count := 0;
    var i := 0;
    while i < limit
      invariant 0 <= i == count <= limit
      invariant CommonPrefix(p, q) == i + CommonPrefix(p[i..], q[i..])
    {
      assert p[i..][1..] == p[i + 1..] && q[i..][1..] == q[i + 1..];
      if p[i] != q[i] {
        break;
      }
      count := count + 1;
      i := i + 1;
    }
  }

  function CountNonEmpty(parts: seq<string>): nat {
    if parts == [] then 0
    else CountNonEmpty(parts[..|parts| - 1]) + if parts[|parts| - 1] != "" then 1 else 0
  }

  function Precision(version: string): nat {
    if version == "" then 0 else CountNonEmpty(SplitVersion(version))
  }

  method VersionPrecision(version: string) returns (count: nat)
    ensures count == Precision(version)
  {
    if version == "" {
      return 0;
    }
    var parts := SplitVersion(version);
    count := 0;
    var i := 0;
    while i < |parts|
      invariant 0 <= i <= |parts|
      invariant count == CountNonEmpty(parts[..i])
    {
      assert parts[..i + 1][..i] == parts[..i];
      if parts[i] != "" {
        count := count + 1;
      }
      i := i + 1;
    }
    assert parts[..i] == parts;
  }

  function BoundCount(vr: VersionRange): int {
    (if vr.min != "" then 1 else 0) + (if vr.max != "" then 1 else 0)
  }

  const NO_RANGE := VersionRange("", "")

  function RankOf(a: Adapter): Rank {
    if a.meta.None? then Rank(0, NO_RANGE, 0, 0, 0, 0)
    else
      var meta := a.meta.value;
      match Parse(meta.versionRange)
      case Err(_) => Rank(0, NO_RANGE, 0, 0, |meta.required|, |meta.optional|)
      case Ok(vr) =>
        Rank(BoundCount(vr), vr, SharedPrefix(vr), Precision(vr.min) + Precision(vr.max),
             |meta.required|, |meta.optional|)
  }

  // ---------- the comparator ----------

  function CompareInt(left: int, right: int): int {
    if left > right then 1 else if left < right then -1 else 0
  }

  /** The window bounds: a higher minimum and a lower maximum are narrower; a lone minimum beats a lone maximum. */
  function CompareBounds(left: Rank, right: Rank): int {
    if left.boundCount == 2 then
      var cmp := Compare(left.range.min, right.range.min);
      if cmp != 0 then cmp else Compare(right.range.max, left.range.max)
    else if left.boundCount == 1 then
      var byMin := if left.range.min == "" && right.range.min == "" then 0
                   else if left.range.min == "" then -1
                   else if right.range.min == "" then 1
                   else Compare(left.range.min, right.range.min);
      if byMin != 0 then byMin
      else if left.range.max == "" && right.range.max == "" then 0
      else if left.range.max == "" then -1
      else if right.range.max == "" then 1
      else Compare(right.range.max, left.range.max)
    else 0
  }

  function CompareId(a: string, b: string): int {
    if Less(a, b) then 1 else if Less(b, a) then -1 else 0
  }

  function CompareSpecificity(a: Adapter, b: Adapter): int {
    var left, right := RankOf(a), RankOf(b);
    if left.boundCount != right.boundCount then CompareInt(left.boundCount, right.boundCount)
    else if left.sharedPrefix != right.sharedPrefix then CompareInt(left.sharedPrefix, right.sharedPrefix)
    else
      var bounds := CompareBounds(left, right);
      if bounds != 0 then bounds
      else if left.precision != right.precision then CompareInt(left.precision, right.precision)
      else if left.required != right.required then CompareInt(left.required, right.required)
      else if left.optional != right.optional then CompareInt(left.optional, right.optional)
      else CompareId(a.id, b.id)
  }

  /** Sorted first: more specific. */
  predicate Before(a: Adapter, b: Adapter) {
    CompareSpecificity(a, b) > 0
  }

  // ---------- the comparator is a strict total order ----------

  /** The rank of an adapter has as many bounds as its range. */
  ghost predicate RankShape(r: Rank) {
    r.boundCount == BoundCount(r.range)
  }

  lemma BoundsAntisymmetric(l: Rank, r: Rank)
    requires RankShape(l) && RankShape(r) && l.boundCount == r.boundCount
    ensures CompareBounds(l, r) == -CompareBounds(r, l)
  {
    hide Segments, CompareSegments;
    CompareMeaning(Segments(l.range.min), Segments(r.range.min));
    CompareMeaning(Segments(l.range.max), Segments(r.range.max));
  }

  lemma BoundsTransitive(l: Rank, m: Rank, r: Rank)
    requires RankShape(l) && RankShape(m) && RankShape(r) && l.boundCount == m.boundCount == r.boundCount
    requires CompareBounds(l, m) >= 0 && CompareBounds(m, r) >= 0
    ensures CompareBounds(l, r) >= 0
    ensures CompareBounds(l, r) == 0 <==> CompareBounds(l, m) == 0 && CompareBounds(m, r) == 0
  {
    hide Segments, CompareSegments;
    var a, b, c := Segments(l.range.min), Segments(m.range.min), Segments(r.range.min);
    var x, y, z := Segments(l.range.max), Segments(m.range.max), Segments(r.range.max);
    CompareMeaning(a, b);
    CompareMeaning(b, c);
    CompareMeaning(a, c);
    CompareMeaning(x, y);
    CompareMeaning(y, z);
    CompareMeaning(x, z);
    if CompareSegments(b, a) <= 0 && CompareSegments(c, b) <= 0 {
      CompareTransitive(c, b, a);
    }
    if CompareSegments(x, y) <= 0 && CompareSegments(y, z) <= 0 {
      CompareTransitive(x, y, z);
    }
  }

  lemma RankHasShape(a: Adapter)
    ensures RankShape(RankOf(a))
  {
    hide Parse;
  }

  /** Exactly one of two adapters with different ids comes first. */
  lemma SpecificityTotal(a: Adapter, b: Adapter)
    ensures CompareSpecificity(a, b) == -CompareSpecificity(b, a)
    ensures a.id != b.id ==> Before(a, b) != Before(b, a)
    ensures !Before(a, a)
  {
    hide RankOf, CompareBounds, RankShape;
    RankHasShape(a);
    RankHasShape(b);
    TotalOrder(a.id, b.id);
    TotalOrder(a.id, a.id);
    if RankOf(a).boundCount == RankOf(b).boundCount {
      BoundsAntisymmetric(RankOf(a), RankOf(b));
    }
    BoundsAntisymmetric(RankOf(a), RankOf(a));
  }

  lemma SpecificityTransitive(a: Adapter, b: Adapter, c: Adapter)
    requires Before(a, b) && Before(b, c)
    ensures Before(a, c)
  {
    hide RankOf, CompareBounds, RankShape;
    RankHasShape(a);
    RankHasShape(b);
    RankHasShape(c);
    var l, m, r := RankOf(a), RankOf(b), RankOf(c);
    if l.boundCount == m.boundCount == r.boundCount && l.sharedPrefix == m.sharedPrefix == r.sharedPrefix {
      BoundsTransitive(l, m, r);
    }
    if Less(a.id, b.id) && Less(b.id, c.id) {
      Transitive(a.id, b.id, c.id);
    }
  }

  // ---------- the order, on what adapters declare ----------

  /** The declared window; none without metadata or when the text is no range. */
  ghost function Window(a: Adapter): VersionRange {
    if a.meta.Some? && Parse(a.meta.value.versionRange).Ok? then Parse(a.meta.value.versionRange).value
    else VersionRange("", "")
  }

  ghost function RequiredOf(a: Adapter): seq<string> {
    if a.meta.Some? then a.meta.value.required else []
  }

  ghost function OptionalOf(a: Adapter): seq<string> {
    if a.meta.Some? then a.meta.value.optional else []
  }

  /** The segments a bound writes out. */
  ghost function WrittenSegments(bound: string): set<nat> {
    if bound == "" then {} else set i: nat | i < |SplitVersion(bound)| && SplitVersion(bound)[i] != ""
  }

  ghost function Written(vr: VersionRange): nat {
    |WrittenSegments(vr.min)| + |WrittenSegments(vr.max)|
  }

  lemma {:induction false} CountIsSize(parts: seq<string>)
    ensures CountNonEmpty(parts) == |set i: nat | i < |parts| && parts[i] != ""|
  {
    var here := set i: nat | i < |parts| && parts[i] != "";
    if parts != [] {
      var n := |parts| - 1;
      CountIsSize(parts[..n]);
      var before := set i: nat | i < |parts[..n]| && parts[..n][i] != "";
      assert here == before + if parts[n] != "" then {n} else {};
    } else {
      assert here == {};
    }
  }

  lemma PrecisionIsWritten(bound: string)
    ensures Precision(bound) == |WrittenSegments(bound)|
  {
    hide SplitVersion;
    if bound != "" {
      CountIsSize(SplitVersion(bound));
    }
  }

  /** The two bounds are both absent or equal as versions. */
  ghost predicate SameBound(left: string, right: string) {
    (left == "" <==> right == "") && (left != "" ==> Compare(left, right) == 0)
  }

  ghost predicate SameBounds(v: VersionRange, w: VersionRange) {
    SameBound(v.min, w.min) && SameBound(v.max, w.max) && SharedPrefix(v) == SharedPrefix(w)
  }

  lemma RankFields(a: Adapter)
    ensures RankOf(a).range == Window(a) && RankOf(a).boundCount == BoundCount(Window(a))
    ensures RankOf(a).sharedPrefix == SharedPrefix(Window(a))
    ensures RankOf(a).precision == Written(Window(a))
    ensures RankOf(a).required == |RequiredOf(a)| && RankOf(a).optional == |OptionalOf(a)|
  {
    hide Parse, Precision, WrittenSegments;
    PrecisionIsWritten(Window(a).min);
    PrecisionIsWritten(Window(a).max);
    PrecisionIsWritten("");
    NothingWritten();
  }

  lemma NothingWritten()
    ensures WrittenSegments("") == {}
  {
  }

  /** The richer declaration comes first: more required, then more optional capabilities, then the smaller id. */
  ghost predicate Richer(a: Adapter, b: Adapter) {
    || |RequiredOf(a)| > |RequiredOf(b)|
    || (|RequiredOf(a)| == |RequiredOf(b)| && |OptionalOf(a)| > |OptionalOf(b)|)
    || (|RequiredOf(a)| == |RequiredOf(b)| && |OptionalOf(a)| == |OptionalOf(b)| && Less(a.id, b.id))
  }

  /**
   What comes first: more bounds; then more shared segments; then the higher minimum, a minimum rather than a
   maximum alone, and the lower maximum; then more written segments; then the richer declaration.
   */
  lemma SpecificityMeaning(a: Adapter, b: Adapter)
    ensures
      var v, w := Window(a), Window(b);
      && (BoundCount(v) > BoundCount(w) ==> Before(a, b))
      && (BoundCount(v) == BoundCount(w) ==>
            && (SharedPrefix(v) > SharedPrefix(w) ==> Before(a, b))
            && (SharedPrefix(v) == SharedPrefix(w) ==>
                  && (v.min != "" && w.min != "" && Compare(v.min, w.min) > 0 ==> Before(a, b))
                  && (v.min != "" && w.min == "" ==> Before(a, b))
                  && (SameBound(v.min, w.min) && v.max != "" && w.max != "" && Compare(v.max, w.max) < 0
                      ==> Before(a, b))))
      && (SameBounds(v, w) && Written(v) > Written(w) ==> Before(a, b))
      && (SameBounds(v, w) && Written(v) == Written(w) ==> (Before(a, b) <==> Richer(a, b)))
  {
    hide RankOf, Window, RequiredOf, OptionalOf, Written, Segments, CompareSegments, SharedPrefix;
    RankFields(a);
    RankFields(b);
    var v, w := Window(a), Window(b);
    CompareMeaning(Segments(v.max), Segments(w.max));
    TotalOrder(a.id, b.id);
  }

  /** Adapters that declare the same window are ranked by their capabilities, and then by id. */
  lemma SameWindowRicherFirst(a: Adapter, b: Adapter)
    requires a.meta.Some? && b.meta.Some? && a.meta.value.versionRange == b.meta.value.versionRange
    ensures
      var l, r := a.meta.value, b.meta.value;
      Before(a, b) <==>
      || |l.required| > |r.required|
      || (|l.required| == |r.required| && |l.optional| > |r.optional|)
      || (|l.required| == |r.required| && |l.optional| == |r.optional| && Less(a.id, b.id))
  {
    hide Segments, CompareSegments, Before, Written, SharedPrefix, Parse;
    SpecificityMeaning(a, b);
    var v := Window(a);
    CompareMeaning(Segments(v.min), Segments(v.min));
    CompareMeaning(Segments(v.max), Segments(v.max));
    assert SamePadded(Segments(v.min), Segments(v.min)) && SamePadded(Segments(v.max), Segments(v.max));
  }

  /** One required capability outranks any number of optional ones. */
  lemma RequiredOutranksOptional(a: Adapter, b: Adapter, optional: seq<string>)
    requires a.meta == Some(AdapterMeta("", ["c"], [], DegradeNone))
    requires b.meta == Some(AdapterMeta("", [], optional, DegradeNone))
    ensures Before(a, b) && !Before(b, a)
  {
    hide Before;
    SameWindowRicherFirst(a, b);
    SameWindowRicherFirst(b, a);
  }

  // ---------- windows as sets of versions ----------

  /** Every version the first range accepts, the second accepts too. */
  ghost predicate Within(a: VersionRange, b: VersionRange) {
    forall v: string | !Blank(v) && Contains(a, v) :: Contains(b, v)
  }

  ghost predicate NonEmpty(a: VersionRange) {
    exists v: string :: !Blank(v) && Contains(a, v)
  }

  ghost predicate StrictlyWithin(a: VersionRange, b: VersionRange) {
    Within(a, b) && !Within(b, a)
  }

  /** Parsed bounds hold no whitespace. */
  ghost predicate Proper(vr: VersionRange) {
    NoSpace(vr.min) && NoSpace(vr.max)
  }

  /** Containment said on the bounds. */
  ghost predicate BoundsWithin(a: VersionRange, b: VersionRange) {
    && (b.min != "" ==> a.min != "" && Compare(a.min, b.min) >= 0)
    && (b.max != "" ==> a.max != "" && Compare(a.max, b.max) <= 0)
  }

  lemma ParsedIsProper(s: string)
    requires Parse(s).Ok?
    ensures Proper(Parse(s).value)
  {
    ParsedBoundsHaveNoSpace(NO_RANGE, Fields(TrimSpace(s)));
  }

  lemma BoundIsVersion(v: string)
    requires NoSpace(v) && v != ""
    ensures !Blank(v) && TrimSpace(v) == v
  {
    assert v[0] in v && v[|v| - 1] in v;
    NothingToTrim(v);
  }

  lemma {:induction false} BoundsWithinSound(a: VersionRange, b: VersionRange)
    requires BoundsWithin(a, b)
    ensures Within(a, b)
  {
    hide Segments, CompareSegments;
    forall v: string | !Blank(v) && Contains(a, v) ensures Contains(b, v) {
      var w := TrimSpace(v);
      if b.min != "" {
        CompareMeaning(Segments(a.min), Segments(b.min));
        CompareMeaning(Segments(w), Segments(a.min));
        CompareMeaning(Segments(w), Segments(b.min));
        CompareTransitive(Segments(b.min), Segments(a.min), Segments(w));
      }
      if b.max != "" {
        CompareTransitive(Segments(w), Segments(a.max), Segments(b.max));
      }
    }
  }

  // ----- a version below any bound -----

  function Tildes(k: nat): (s: string)
    ensures |s| == k && forall c | c in s :: c == '~'
  {
    if k == 0 then "" else Tildes(k - 1) + "~"
  }

  function TildeHash(k: nat): int {
    if k == 0 then 0 else Wrap64(TildeHash(k - 1) * 31 + 126)
  }

  lemma {:induction false} HashOfTildes(k: nat)
    ensures Hash(Tildes(k)) == TildeHash(k)
  {
    if k > 0 {
      HashOfTildes(k - 1);
      assert Tildes(k)[..k - 1] == Tildes(k - 1);
    }
  }

  /** Thirteen tildes hash to a negative number, by int64 overflow. */
  lemma NegativeSegment()
    ensures SegmentValue(Tildes(13)) < 0
  {
    var s := Tildes(13);
    assert s[0] in s && !IsDigit(s[0]);
    assert ParseInt64(s) == None;
    HashOfTildes(13);
    ThirteenTildes();
  }

  lemma ThirteenTildes()
    ensures TildeHash(13) < 0
  {
    assert TildeHash(0) == 0;
    hide TildeHash;
    TildeStep(0, 0, 126);
    TildeStep(1, 126, 4032);
    TildeStep(2, 4032, 125118);
    TildeStep(3, 125118, 3878784);
    TildeStep(4, 3878784, 120242430);
    TildeStep(5, 120242430, 3727515456);
    TildeStep(6, 3727515456, 115552979262);
    TildeStep(7, 115552979262, 3582142357248);
    TildeStep(8, 3582142357248, 111046413074814);
    TildeStep(9, 111046413074814, 3442438805319360);
    TildeStep(10, 3442438805319360, 106715602964900286);
    TildeStep(11, 106715602964900286, 3308183691911908992);
    TildeStep(12, 3308183691911908992, -8126769992988130818);
  }

  lemma TildeStep(k: nat, before: int, after: int)
    requires TildeHash(k) == before && after == Wrap64(before * 31 + 126)
    ensures TildeHash(k + 1) == after
  {
  }

  lemma {:induction false} SplitAppend(a: string, b: string, sep: char)
    requires sep !in b
    ensures Split(a + [sep] + b, sep) == Split(a, sep) + [b]
  {
    var s := a + [sep] + b;
    if a == "" {
      assert s[1..] == b;
      SplitWhole(b, sep);
      assert Split(s, sep) == [""] + [b];
    } else {
      assert s[1..] == a[1..] + [sep] + b;
      SplitAppend(a[1..], b, sep);
      var rest := Split(a[1..], sep);
      assert (rest + [b])[1..] == rest[1..] + [b];
    }
  }

  lemma {:induction false} SplitWhole(b: string, sep: char)
    requires sep !in b
    ensures Split(b, sep) == [b]
  {
    if b != "" {
      SplitWhole(b[1..], sep);
      assert [b[0]] + b[1..] == b;
    }
  }

  predicate IsSeparator(c: char) {
    c == '.' || c == '-'
  }

  /** Appending a segment to a version appends its number. */
  lemma AppendSegment(v: string, sep: char, segment: string)
    requires v != "" && NoSpace(v) && NoSpace(segment) && segment != "" && '.' !in segment && '-' !in segment
    requires IsSeparator(sep)
    ensures !Blank(v + [sep] + segment) && NoSpace(v + [sep] + segment)
    ensures Segments(v + [sep] + segment) == Segments(v) + [SegmentValue(segment)]
  {
    hide SegmentValue;
    var w := v + [sep] + segment;
    SeparatorIsNoSpace(v, sep, segment);
    BoundIsVersion(v);
    BoundIsVersion(w);
    assert DashesToDots(w) == DashesToDots(v) + ['.'] + segment;
    SplitAppend(DashesToDots(v), segment, '.');
  }

  lemma SeparatorIsNoSpace(v: string, sep: char, segment: string)
    requires NoSpace(v) && NoSpace(segment) && IsSeparator(sep)
    ensures NoSpace(v + [sep] + segment)
  {
    assert forall c | c in v + [sep] + segment :: c in v || c in segment || c == sep;
  }

  /** Below every version there is another one. */
  lemma SomethingBelow(v: string) returns (w: string)
    requires v != "" && NoSpace(v)
    ensures !Blank(w) && TrimSpace(w) == w && Compare(w, v) < 0
  {
    w := v + "." + Tildes(13);
    TildesAreASegment();
    AppendSegment(v, '.', Tildes(13));
    BoundIsVersion(w);
    NegativeSegment();
    var p, q := Segments(w), Segments(v);
    assert BelowAt(p, q, |q|);
    CompareMeaning(p, q);
  }

  lemma TildesAreASegment()
    ensures NoSpace(Tildes(13)) && '.' !in Tildes(13) && '-' !in Tildes(13) && Tildes(13) != ""
  {
    assert !IsSpace('~');
  }

  /** For a non-empty window, containment of the accepted versions is containment of the bounds. */
  lemma WithinIsBoundsWithin(a: VersionRange, b: VersionRange)
    requires Proper(a) && Proper(b) && NonEmpty(a)
    ensures Within(a, b) <==> BoundsWithin(a, b)
  {
    hide Contains, Compare, NonEmpty, Within;
    if BoundsWithin(a, b) {
      BoundsWithinSound(a, b);
    }
    if Within(a, b) {
      if b.min != "" {
        MinWithin(a, b);
      }
      if b.max != "" {
        MaxWithin(a, b);
      }
    }
  }

  /** The lower bound of a non-empty window is one of its versions. */
  lemma MinAccepted(a: VersionRange)
    requires Proper(a) && NonEmpty(a) && a.min != ""
    ensures !Blank(a.min) && TrimSpace(a.min) == a.min && Contains(a, a.min)
  {
    hide Segments, CompareSegments;
    BoundIsVersion(a.min);
    var v: string :| !Blank(v) && Contains(a, v);
    var w := TrimSpace(v);
    var low, mid := Segments(a.min), Segments(w);
    CompareMeaning(low, low);
    CompareMeaning(low, mid);
    if a.max != "" {
      CompareMeaning(low, Segments(a.max));
      CompareMeaning(mid, Segments(a.max));
      CompareTransitive(low, mid, Segments(a.max));
    }
    assert SamePadded(low, low);
  }

  lemma MinWithin(a: VersionRange, b: VersionRange)
    requires Proper(a) && Proper(b) && NonEmpty(a) && Within(a, b) && b.min != ""
    ensures a.min != "" && Compare(a.min, b.min) >= 0
  {
    hide Segments, CompareSegments;
    if a.min != "" {
      MinAccepted(a);
    } else {
      UnboundedBelowEscapes(a, b);
    }
  }

  /** Without a lower bound, a non-empty window accepts something below any minimum. */
  lemma UnboundedBelowEscapes(a: VersionRange, b: VersionRange)
    requires Proper(b) && NonEmpty(a) && a.min == "" && b.min != ""
    ensures !Within(a, b)
  {
    hide Segments, CompareSegments;
    var v: string :| !Blank(v) && Contains(a, v);
    var w := TrimSpace(v);
    var below := SomethingBelow(b.min);
    var low, mid, min, max := Segments(below), Segments(w), Segments(b.min), Segments(a.max);
    CompareMeaning(low, max);
    CompareMeaning(mid, max);
    CompareMeaning(mid, min);
    CompareMeaning(low, min);
    if a.max == "" || Compare(below, a.max) < 0 {
      assert Contains(a, below) && !Contains(b, below);
    } else {
      CompareMeaning(max, low);
      CompareMeaning(min, low);
      // max <= low < min, and w is below max.
      CompareTransitive(mid, max, low);
      CompareTransitive(mid, low, min);
      assert Contains(a, v) && !Contains(b, v);
    }
  }

  lemma MaxWithin(a: VersionRange, b: VersionRange)
    requires Proper(a) && Proper(b) && NonEmpty(a) && Within(a, b) && b.max != ""
    ensures a.max != "" && Compare(a.max, b.max) <= 0
  {
    hide Segments, CompareSegments, Within;
    if a.max == "" || Compare(a.max, b.max) > 0 {
      HigherMaxEscapes(a, b);
    }
  }

  /** With a higher maximum, a non-empty window accepts the other's maximum, or starts above it. */
  lemma HigherMaxEscapes(a: VersionRange, b: VersionRange)
    requires Proper(a) && Proper(b) && NonEmpty(a) && b.max != ""
    requires a.max == "" || Compare(a.max, b.max) > 0
    ensures !Within(a, b)
  {
    hide Segments, CompareSegments;
    BoundIsVersion(b.max);
    var top := Segments(b.max);
    CompareMeaning(top, top);
    assert SamePadded(top, top);
    CompareMeaning(Segments(a.max), top);
    CompareMeaning(Segments(a.min), top);
    if a.min != "" && Compare(b.max, a.min) < 0 {
      MinAccepted(a);
      assert Contains(a, a.min) && !Contains(b, a.min);
    } else {
      assert Contains(a, b.max) && !Contains(b, b.max);
    }
  }

  // ---------- narrower windows win ----------

  /** The adapter declares this window. */
  ghost predicate Declares(a: Adapter, vr: VersionRange) {
    a.meta.Some? && Parse(a.meta.value.versionRange) == Ok(vr)
  }

  lemma StrictBounds(a: VersionRange, b: VersionRange)
    requires Proper(a) && Proper(b) && NonEmpty(a) && StrictlyWithin(a, b)
    ensures BoundsWithin(a, b) && !BoundsWithin(b, a)
  {
    hide Contains, Compare, Within, NonEmpty;
    WithinIsBoundsWithin(a, b);
    if BoundsWithin(b, a) {
      BoundsWithinSound(b, a);
    }
  }

  /**
   An adapter whose non-empty window is strictly contained in another's ranks above it if and only if
   its window has more bounds, or bounds that share at least as many leading segments.
   */
  lemma NarrowerWinsExactly(a: Adapter, b: Adapter, va: VersionRange, vb: VersionRange)
    requires Declares(a, va) && Declares(b, vb)
    requires NonEmpty(va) && StrictlyWithin(va, vb)
    ensures Before(a, b) <==> BoundCount(va) > BoundCount(vb) || SharedPrefix(va) >= SharedPrefix(vb)
  {
    hide Contains, NonEmpty, StrictlyWithin, Segments, CompareSegments, Parse, Precision, SharedPrefix;
    ParsedIsProper(a.meta.value.versionRange);
    ParsedIsProper(b.meta.value.versionRange);
    StrictBounds(va, vb);
    if BoundCount(va) < 2 {
      LoneBoundSharesNothing(va);
    }
    if BoundCount(vb) < 2 {
      LoneBoundSharesNothing(vb);
    }
    CompareMeaning(Segments(va.min), Segments(vb.min));
    CompareMeaning(Segments(va.max), Segments(vb.max));
  }

  lemma LoneBoundSharesNothing(vr: VersionRange)
    requires BoundCount(vr) < 2
    ensures SharedPrefix(vr) == 0
  {
  }

  lemma SamePrefixAt(p: seq<int>, q: seq<int>, n: nat)
    requires n <= |p| && n <= |q|
    ensures p[..n] == q[..n] <==> forall i: nat | i < n :: At(p, i) == At(q, i)
  {
    if p[..n] == q[..n] {
      assert forall i: nat | i < n :: p[..n][i] == At(p, i) && q[..n][i] == At(q, i);
    } else if forall i: nat | i < n :: At(p, i) == At(q, i) {
      assert forall i: nat | i < n :: p[i] == At(p, i) && q[i] == At(q, i);
    }
  }

  /** Between two versions that share a prefix, every version shares it. */
  lemma PrefixBetween(low: seq<int>, p: seq<int>, high: seq<int>, n: nat)
    requires n <= |p| && n <= |low| && n <= |high| && low[..n] == high[..n]
    requires CompareSegments(low, p) <= 0 && CompareSegments(p, high) <= 0
    ensures p[..n] == low[..n]
  {
    CompareMeaning(low, p);
    CompareMeaning(p, high);
    SamePrefixAt(low, high, n);
    SamePrefixAt(p, low, n);
    if k: nat :| BelowAt(low, p, k) {
      if l: nat :| BelowAt(p, high, l) {
        assert k >= n && l >= n;
      }
    }
  }

  lemma CommonPrefixAtLeast(p: seq<int>, q: seq<int>, n: nat)
    requires n <= |p| && n <= |q| && p[..n] == q[..n]
    ensures CommonPrefix(p, q) >= n
  {
    SamePrefixAt(p, q, n);
    assert CommonPrefix(p, q) < n ==> At(p, CommonPrefix(p, q)) == At(q, CommonPrefix(p, q));
  }

  /** A contained two-sided window with bounds of equal length shares at least as long a prefix. */
  lemma ContainedSharesMore(va: VersionRange, vb: VersionRange)
    requires BoundsWithin(va, vb) && vb.min != "" && vb.max != ""
    requires Compare(va.min, va.max) < 0
    requires |Segments(va.min)| == |Segments(va.max)| == |Segments(vb.min)| == |Segments(vb.max)|
    ensures SharedPrefix(va) >= SharedPrefix(vb)
  {
    hide Segments, CompareSegments;
    var low, high := Segments(vb.min), Segments(vb.max);
    var p, q := Segments(va.min), Segments(va.max);
    var n := CommonPrefix(low, high);
    CompareMeaning(p, low);
    CompareMeaning(low, p);
    CompareTransitive(low, p, q);
    CompareTransitive(p, q, high);
    PrefixBetween(low, p, high, n);
    PrefixBetween(low, q, high, n);
    CommonPrefixAtLeast(p, q, n);
  }

  /** Some version fits, so the minimum is below the maximum. */
  lemma NonEmptyBounds(a: VersionRange)
    requires Proper(a) && NonEmpty(a) && a.min != "" && a.max != ""
    ensures Compare(a.min, a.max) < 0
  {
    MinAccepted(a);
  }

  /**
   Narrower wins: a non-empty window strictly contained in another ranks above it, whenever the
   four bounds of two two-sided windows have equally many segments.
   */
  lemma NarrowerWins(a: Adapter, b: Adapter, va: VersionRange, vb: VersionRange)
    requires Declares(a, va) && Declares(b, vb)
    requires NonEmpty(va) && StrictlyWithin(va, vb)
    requires BoundCount(va) == BoundCount(vb) == 2 ==>
               |Segments(va.min)| == |Segments(va.max)| == |Segments(vb.min)| == |Segments(vb.max)|
    ensures Before(a, b)
  {
    hide Contains, NonEmpty, StrictlyWithin, Segments, Compare, Parse, SharedPrefix, Before, BoundsWithin;
    NarrowerWinsExactly(a, b, va, vb);
    ParsedIsProper(a.meta.value.versionRange);
    ParsedIsProper(b.meta.value.versionRange);
    StrictBounds(va, vb);
    if BoundCount(va) == 2 && BoundCount(vb) == 2 {
      NonEmptyBounds(va);
      ContainedSharesMore(va, vb);
    } else {
      FewerBoundsMeansWider(va, vb);
      LoneBoundSharesNothing(vb);
    }
  }

  lemma FewerBoundsMeansWider(va: VersionRange, vb: VersionRange)
    requires BoundsWithin(va, vb)
    ensures BoundCount(va) >= BoundCount(vb)
  {
    hide Compare;
  }

  // ---------- versions written in numbers ----------

  /** The numbers in decimal, a dot or a dash between two of them. */
  function Numbered(numbers: seq<nat>, separators: string): string
    requires numbers != [] && |separators| == |numbers| - 1
  {
    var n := |numbers| - 1;
    if n == 0 then Decimal(numbers[0])
    else Numbered(numbers[..n], separators[..n - 1]) + [separators[n - 1]] + Decimal(numbers[n])
  }

  lemma DecimalIsASegment(n: nat)
    ensures NoSpace(Decimal(n)) && '.' !in Decimal(n) && '-' !in Decimal(n)
    ensures n <= INT64_MAX ==> SegmentValue(Decimal(n)) == n
  {
    hide ParseInt64, Decimal, DecimalValue, Hash;
    DecimalDigits(n);
    ParseDecimal(n, "");
    assert "" + Decimal(n) == Decimal(n);
    DigitsAreNoSeparators(Decimal(n));
  }

  lemma DigitsAreNoSeparators(digits: string)
    requires forall c | c in digits :: IsDigit(c)
    ensures NoSpace(digits) && '.' !in digits && '-' !in digits
  {
  }

  ghost predicate ProperNumbers(numbers: seq<nat>) {
    numbers != [] && forall n | n in numbers :: n <= INT64_MAX
  }

  /** Dots and dashes, one fewer than numbers. */
  ghost predicate Separates(separators: string, numbers: seq<nat>) {
    |separators| == |numbers| - 1 && forall c | c in separators :: IsSeparator(c)
  }

  lemma ShorterNumbers(numbers: seq<nat>, separators: string)
    requires ProperNumbers(numbers) && Separates(separators, numbers) && |numbers| > 1
    ensures
      var n := |numbers| - 1;
      && ProperNumbers(numbers[..n]) && Separates(separators[..n - 1], numbers[..n])
      && numbers[n] <= INT64_MAX && IsSeparator(separators[n - 1])
  {
    var n := |numbers| - 1;
    assert numbers[n] in numbers && separators[n - 1] in separators;
    assert forall c | c in separators[..n - 1] :: c in separators;
    assert forall m | m in numbers[..n] :: m in numbers;
  }

  /** A version written in numbers has exactly these numbers as its segments. */
  lemma {:induction false} WrittenSegmentsReadBack(numbers: seq<nat>, separators: string)
    requires ProperNumbers(numbers) && Separates(separators, numbers)
    ensures Numbered(numbers, separators) != "" && NoSpace(Numbered(numbers, separators))
    ensures Segments(Numbered(numbers, separators)) == numbers
    decreases |numbers|
  {
    hide SegmentValue, Segments, Decimal, NoSpace;
    var n := |numbers| - 1;
    DecimalIsASegment(numbers[n]);
    if n == 0 {
      assert numbers[0] in numbers;
      OneSegment(Decimal(numbers[0]));
    } else {
      ShorterNumbers(numbers, separators);
      hide ProperNumbers, Separates;
      WrittenSegmentsReadBack(numbers[..n], separators[..n - 1]);
      AppendSegment(Numbered(numbers[..n], separators[..n - 1]), separators[n - 1], Decimal(numbers[n]));
    }
  }

  lemma OneSegment(segment: string)
    requires NoSpace(segment) && segment != "" && '.' !in segment && '-' !in segment
    ensures Segments(segment) == [SegmentValue(segment)]
  {
    hide SegmentValue;
    BoundIsVersion(segment);
    assert DashesToDots(segment) == segment;
    SplitWhole(segment, '.');
  }

  /** p is below q at the first number where they differ, missing numbers counting as zero. */
  ghost predicate NumbersBelow(p: seq<nat>, q: seq<nat>) {
    exists k: nat :: BelowAt(p, q, k)
  }

  /** A window accepts its minimum and refuses its maximum: written in numbers, exactly what lies between them. */
  lemma WindowOfNumbers(min: seq<nat>, max: seq<nat>, numbers: seq<nat>, separators: string)
    requires ProperNumbers(min) && ProperNumbers(max)
    requires ProperNumbers(numbers) && Separates(separators, numbers)
    ensures
      var low, high := Numbered(min, Dots(|min| - 1)), Numbered(max, Dots(|max| - 1));
      Contains(VersionRange(low, high), Numbered(numbers, separators))
      <==> !NumbersBelow(numbers, min) && NumbersBelow(numbers, max)
  {
    hide Segments, CompareSegments, Numbered, NoSpace, Dots, TrimSpace;
    var low, high := Numbered(min, Dots(|min| - 1)), Numbered(max, Dots(|max| - 1));
    var v := Numbered(numbers, separators);
    WrittenSegmentsReadBack(min, Dots(|min| - 1));
    WrittenSegmentsReadBack(max, Dots(|max| - 1));
    WrittenSegmentsReadBack(numbers, separators);
    BoundIsVersion(v);
    CompareMeaning(numbers, min);
    CompareMeaning(numbers, max);
  }

  function Dots(n: nat): (s: string)
    ensures |s| == n && forall c | c in s :: IsSeparator(c)
  {
    seq(n, i => '.')
  }

  /** Without a version nothing is refused. */
  lemma NoVersionIsAccepted(vr: VersionRange, spaces: string)
    requires forall c | c in spaces :: IsSpace(c)
    ensures Contains(vr, spaces)
  {
    OnlySpaces(spaces);
  }

  lemma {:induction false} OnlySpaces(spaces: string)
    requires forall c | c in spaces :: IsSpace(c)
    ensures TrimLeft(spaces) == ""
  {
    if spaces != "" {
      OnlySpaces(spaces[1..]);
    }
  }

  // ---------- why equal lengths matter ----------

  lemma DigitSegment(c: char)
    requires IsDigit(c)
    ensures SegmentValue([c]) == c as int - '0' as int
    ensures NoSpace([c]) && '.' !in [c] && '-' !in [c]
    ensures Segments([c]) == [c as int - '0' as int]
  {
    var s := [c];
    assert c !in "+-" && !IsSpace(c);
    assert DecimalValue(s) == c as int - '0' as int by {
      assert s[..0] == "" && s[0] == c;
    }
    assert forall d | d in s :: IsDigit(d);
    NothingToTrim(s);
    assert DashesToDots(s) == s;
    SplitWhole(s, '.');
  }

  lemma FourSegments(a: char, b: char, c: char, d: char)
    requires IsDigit(a) && IsDigit(b) && IsDigit(c) && IsDigit(d)
    ensures
      var v := [a] + "." + [b] + "." + [c] + "." + [d];
      && NoSpace(v)
      && Segments(v) == [a as int - '0' as int, b as int - '0' as int, c as int - '0' as int, d as int - '0' as int]
  {
    hide SegmentValue, Segments;
    DigitSegment(a);
    DigitSegment(b);
    DigitSegment(c);
    DigitSegment(d);
    AppendSegment([a], '.', [b]);
    AppendSegment([a] + "." + [b], '.', [c]);
    AppendSegment([a] + "." + [b] + "." + [c], '.', [d]);
  }

  lemma ExampleSegments()
    ensures Segments("1") == [1] && Segments("1.0.0.0") == [1, 0, 0, 0]
    ensures Segments("1.0.0.4") == [1, 0, 0, 4] && Segments("1.0.0.5") == [1, 0, 0, 5]
    ensures NoSpace("1") && NoSpace("1.0.0.4")
  {
    hide Segments, SegmentValue, IsSpace;
    DigitSegment('1');
    FourSegments('1', '0', '0', '0');
    FourSegments('1', '0', '0', '4');
    FourSegments('1', '0', '0', '5');
    assert ['1'] + "." + ['0'] + "." + ['0'] + "." + ['0'] == "1.0.0.0";
    assert ['1'] + "." + ['0'] + "." + ['0'] + "." + ['4'] == "1.0.0.4";
    assert ['1'] + "." + ['0'] + "." + ['0'] + "." + ['5'] == "1.0.0.5";
  }

  lemma ExampleComparisons()
    ensures Compare("1", "1") == 0 && Compare("1", "1.0.0.0") == 0 && Compare("1", "1.0.0.4") == -1
    ensures Compare("1.0.0.4", "1.0.0.0") == 1 && Compare("1.0.0.4", "1.0.0.5") == -1
            && Compare("1.0.0.4", "1.0.0.4") == 0
  {
    hide Segments, CompareSegments;
    ExampleSegments();
    CompareMeaning([1], [1]);
    CompareMeaning([1], [1, 0, 0, 0]);
    CompareMeaning([1], [1, 0, 0, 4]);
    CompareMeaning([1, 0, 0, 4], [1, 0, 0, 5]);
    CompareMeaning([1, 0, 0, 4], [1, 0, 0, 4]);
    CompareMeaning([1, 0, 0, 0], [1, 0, 0, 4]);
    assert SamePadded([1], [1, 0, 0, 0]) && SamePadded([1], [1]) && SamePadded([1, 0, 0, 4], [1, 0, 0, 4]);
    assert BelowAt([1], [1, 0, 0, 4], 3) && BelowAt([1, 0, 0, 4], [1, 0, 0, 5], 3)
           && BelowAt([1, 0, 0, 0], [1, 0, 0, 4], 3);
  }

  /** The window >=1 <1.0.0.4 lies strictly inside >=1.0.0.0 <1.0.0.5 and still ranks below it. */
  lemma ShorterBoundsLose(a: Adapter, b: Adapter)
    requires Declares(a, VersionRange("1", "1.0.0.4")) && Declares(b, VersionRange("1.0.0.0", "1.0.0.5"))
    ensures NonEmpty(VersionRange("1", "1.0.0.4"))
    ensures StrictlyWithin(VersionRange("1", "1.0.0.4"), VersionRange("1.0.0.0", "1.0.0.5"))
    ensures Before(b, a)
  {
    hide Segments, Compare, TrimSpace, Parse, Precision;
    var va, vb := VersionRange("1", "1.0.0.4"), VersionRange("1.0.0.0", "1.0.0.5");
    ExampleSegments();
    ExampleComparisons();
    BoundIsVersion("1");
    BoundIsVersion("1.0.0.4");
    assert Contains(va, "1");
    assert BoundsWithin(va, vb);
    BoundsWithinSound(va, vb);
    assert Contains(vb, "1.0.0.4") && !Contains(va, "1.0.0.4");
    CommonPrefixAtLeast([1, 0, 0, 0], [1, 0, 0, 5], 3);
    assert SharedPrefix(va) <= 1 && SharedPrefix(vb) >= 3;
  }
}
