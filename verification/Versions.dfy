/** Dot-separated host versions and the version ranges adapters declare. */
module Versions {
  import opened Wrappers
  import opened GoText

  /** min is inclusive, max exclusive; "" means no bound. */
  datatype VersionRange = VersionRange(min: string, max: string)

  datatype RangeError = InvalidSegment(segment: string)

  // ---------- segments ----------

  /** strings.Split on one character; never empty. */
  function Split(s: string, sep: char): (parts: seq<string>)
    ensures |parts| > 0
  {
    if s == "" then [""]
    else
      var rest := Split(s[1..], sep);
      if s[0] == sep then [""] + rest else [[s[0]] + rest[0]] + rest[1..]
  }

  function DashesToDots(s: string): (r: string)
    ensures |r| == |s|
  {
    seq(|s|, i requires 0 <= i < |s| => if s[i] == '-' then '.' else s[i])
  }

  function SplitVersion(s: string): (parts: seq<string>)
    ensures |parts| > 0
  {
    Split(DashesToDots(TrimSpace(s)), '.')
  }

  /** Wraps into int64, as Go's arithmetic does. */
  function Wrap64(n: int): int {
    (n + 0x8000_0000_0000_0000) % 0x1_0000_0000_0000_0000 - 0x8000_0000_0000_0000
  }

  function Hash(s: string): int {
    if s == "" then 0 else Wrap64(Hash(s[..|s| - 1]) * 31 + s[|s| - 1] as int)
  }

  /** The number of a segment: its decimal value, or a hash for anything else. */
  function SegmentValue(segment: string): int {
    match ParseInt64(segment)
    case Some(n) => n
    case None => Hash(segment)
  }

  /** The numbers of a version's segments. */
  function Segments(version: string): (r: seq<int>)
    ensures |r| > 0
  {
    var parts := SplitVersion(version);
    seq(|parts|, i requires 0 <= i < |parts| => SegmentValue(parts[i]))
  }

  /** Missing segments count as zero. */
  function At(p: seq<int>, i: nat): int {
    if i < |p| then p[i] else 0
  }

  // ---------- comparison ----------

  function CompareFrom(p: seq<int>, q: seq<int>, i: nat): int
    decreases |p| + |q| - i
  {
    if i >= |p| && i >= |q| then 0
    else if At(p, i) < At(q, i) then -1
    else if At(p, i) > At(q, i) then 1
    else CompareFrom(p, q, i + 1)
  }

  function CompareSegments(p: seq<int>, q: seq<int>): int {
    CompareFrom(p, q, 0)
  }

  function Compare(a: string, b: string): int {
    CompareSegments(Segments(a), Segments(b))
  }

  /** Compares segment by segment up to the longer version. */
  method CompareVersions(a: string, b: string) returns (cmp: int)
    ensures cmp == Compare(a, b)
  {
    var p, q := Segments(a), Segments(b);
    var maxLen := if |q| > |p| then |q| else |p|;
    var i := 0;
    while i < maxLen
      invariant 0 <= i <= maxLen
      invariant CompareFrom(p, q, i) == CompareFrom(p, q, 0)
    {
      var av, bv := At(p, i), At(q, i);
      if av < bv {
        return -1;
      }
      if av > bv {
        return 1;
      }
      i := i + 1;
    }
    return 0;
  }

  /** The padded versions agree in every segment. */
  ghost predicate SamePadded(p: seq<int>, q: seq<int>) {
    forall i: nat :: At(p, i) == At(q, i)
  }

  /** p is below q at the first segment where they differ. */
  ghost predicate BelowAt(p: seq<int>, q: seq<int>, k: nat) {
    At(p, k) < At(q, k) && forall i: nat | i < k :: At(p, i) == At(q, i)
  }

  lemma {:induction false} CompareFromMeaning(p: seq<int>, q: seq<int>, i: nat)
    requires forall j: nat | j < i :: At(p, j) == At(q, j)
    ensures CompareFrom(p, q, i) == 0 <==> SamePadded(p, q)
    ensures CompareFrom(p, q, i) == -1 <==> exists k: nat :: BelowAt(p, q, k)
    ensures CompareFrom(p, q, i) == 1 <==> exists k: nat :: BelowAt(q, p, k)
    ensures CompareFrom(p, q, i) in {-1, 0, 1}
    decreases |p| + |q| - i
  {
    if i >= |p| && i >= |q| {
      assert SamePadded(p, q);
    } else if At(p, i) < At(q, i) {
      assert BelowAt(p, q, i);
    } else if At(p, i) > At(q, i) {
      assert BelowAt(q, p, i);
    } else {
      CompareFromMeaning(p, q, i + 1);
    }
  }

  /** The result is a sign, zero exactly for versions that agree after zero padding, and antisymmetric. */
  lemma CompareMeaning(p: seq<int>, q: seq<int>)
    ensures CompareSegments(p, q) in {-1, 0, 1}
    ensures CompareSegments(p, q) == 0 <==> SamePadded(p, q)
    ensures CompareSegments(p, q) == -1 <==> exists k: nat :: BelowAt(p, q, k)
    ensures CompareSegments(p, q) == -CompareSegments(q, p)
  {
    CompareFromMeaning(p, q, 0);
    CompareFromMeaning(q, p, 0);
  }

  /** A total preorder over versions of any lengths. */
  lemma CompareTransitive(p: seq<int>, q: seq<int>, r: seq<int>)
    requires CompareSegments(p, q) <= 0 && CompareSegments(q, r) <= 0
    ensures CompareSegments(p, r) <= 0
    ensures CompareSegments(p, r) == 0 <==> CompareSegments(p, q) == 0 && CompareSegments(q, r) == 0
  {
    CompareMeaning(p, q);
    CompareMeaning(q, r);
    CompareMeaning(p, r);
    if k: nat :| BelowAt(p, q, k) {
      if l: nat :| BelowAt(q, r, l) {
        assert BelowAt(p, r, if k < l then k else l);
      } else {
        assert BelowAt(p, r, k);
      }
    } else if l: nat :| BelowAt(q, r, l) {
      assert BelowAt(p, r, l);
    }
  }

  // ---------- ranges ----------

  predicate Contains(vr: VersionRange, version: string) {
    var v := TrimSpace(version);
    if v == "" then true
    else
      && (vr.min != "" ==> Compare(v, vr.min) >= 0)
      && (vr.max != "" ==> Compare(v, vr.max) < 0)
  }

  predicate Blank(version: string) {
    TrimSpace(version) == ""
  }

  /** Whether a range accepts a version depends only on its zero-padded segments. */
  lemma ContainsRespectsEquality(vr: VersionRange, v: string, w: string)
    requires !Blank(v) && !Blank(w) && Compare(v, w) == 0
    ensures Contains(vr, v) == Contains(vr, w)
  {
    hide Segments;
    TrimmedSegments(v);
    TrimmedSegments(w);
    var p, q := Segments(v), Segments(w);
    forall bound: string ensures CompareSegments(p, Segments(bound)) == CompareSegments(q, Segments(bound)) {
      EqualCompareEqually(p, q, Segments(bound));
    }
  }

  lemma EqualCompareEqually(p: seq<int>, q: seq<int>, r: seq<int>)
    requires CompareSegments(p, q) == 0
    ensures CompareSegments(p, r) == CompareSegments(q, r)
  {
    CompareMeaning(p, q);
    CompareMeaning(p, r);
    CompareMeaning(q, r);
    if CompareSegments(p, r) <= 0 {
      CompareTransitive(q, p, r);
    } else {
      CompareTransitive(r, p, q);
    }
  }

  /** What lies between two accepted versions is accepted. */
  lemma ContainsIsConvex(vr: VersionRange, low: string, v: string, high: string)
    requires !Blank(low) && !Blank(v) && !Blank(high)
    requires Compare(low, v) <= 0 && Compare(v, high) <= 0
    requires Contains(vr, low) && Contains(vr, high)
    ensures Contains(vr, v)
  {
    hide Segments;
    TrimmedSegments(low);
    TrimmedSegments(v);
    TrimmedSegments(high);
    var p, q, r := Segments(low), Segments(v), Segments(high);
    if vr.min != "" {
      CompareMeaning(p, Segments(vr.min));
      CompareMeaning(q, Segments(vr.min));
      CompareTransitive(Segments(vr.min), p, q);
    }
    if vr.max != "" {
      CompareMeaning(q, Segments(vr.max));
      CompareTransitive(q, r, Segments(vr.max));
    }
  }

  lemma TrimIdempotent(s: string)
    ensures TrimSpace(TrimSpace(s)) == TrimSpace(s)
  {
    var t := TrimSpace(s);
    if t != "" {
      assert t <= TrimLeft(s);
      assert t[0] == TrimLeft(s)[0];
    }
  }

  lemma TrimmedSegments(v: string)
    ensures Segments(TrimSpace(v)) == Segments(v)
  {
    TrimIdempotent(v);
  }

  // ---------- parsing and printing ----------

  function WordLength(s: string): (n: nat)
    ensures n <= |s|
    ensures NoSpace(s[..n])
    ensures n < |s| ==> IsSpace(s[n])
    ensures s != "" && !IsSpace(s[0]) ==> n > 0
  {
    if s == "" || IsSpace(s[0]) then 0 else 1 + WordLength(s[1..])
  }

  /** strings.Fields */
  function Fields(s: string): (words: seq<string>)
    ensures forall w | w in words :: w != "" && NoSpace(w)
    decreases |s|
  {
    if s == "" then []
    else if IsSpace(s[0]) then Fields(s[1..])
    else
      var n := WordLength(s);
      [s[..n]] + Fields(s[n..])
  }

  /** A later segment overrides an earlier one of the same side. */
  function WithSegment(vr: VersionRange, part: string): Result<VersionRange, RangeError> {
    if ">=" <= part then Ok(vr.(min := part[2..]))
    else if ">" <= part then Ok(vr.(min := part[1..]))
    else if "<=" <= part then Ok(vr.(max := part[2..]))
    else if "<" <= part then Ok(vr.(max := part[1..]))
    else Err(InvalidSegment(part))
  }

  function WithSegments(vr: VersionRange, parts: seq<string>): Result<VersionRange, RangeError>
    decreases |parts|
  {
    if parts == [] then Ok(vr)
    else
      var next :- WithSegment(vr, parts[0]);
      WithSegments(next, parts[1..])
  }

  function Parse(s: string): Result<VersionRange, RangeError> {
    WithSegments(VersionRange("", ""), Fields(TrimSpace(s)))
  }

  method ParseVersionRange(s: string) returns (result: Result<VersionRange, RangeError>)
    ensures result == Parse(s)
  {
    var trimmed := TrimSpace(s);
    if trimmed == "" {
      return Ok(VersionRange("", ""));
    }
    var vr := VersionRange("", "");
    var parts := Fields(trimmed);
    var i := 0;
    while i < |parts|
      invariant 0 <= i <= |parts|
      invariant WithSegments(vr, parts[i..]) == Parse(s)
    {
      var part := parts[i];
      assert parts[i..][0] == part && parts[i..][1..] == parts[i + 1..];
      if ">=" <= part {
        vr := vr.(min := part[2..]);
      } else if ">" <= part {
        vr := vr.(min := part[1..]);
      } else if "<=" <= part {
        vr := vr.(max := part[2..]);
      } else if "<" <= part {
        vr := vr.(max := part[1..]);
      } else {
        return Err(InvalidSegment(part));
      }
      i := i + 1;
    }
    return Ok(vr);
  }

  function Join(parts: seq<string>): string {
    if parts == [] then ""
    else if |parts| == 1 then parts[0]
    else parts[0] + " " + Join(parts[1..])
  }

  /** The canonical text of a range. */
  function Print(vr: VersionRange): string {
    Join((if vr.min != "" then [">=" + vr.min] else []) + (if vr.max != "" then ["<" + vr.max] else []))
  }

  lemma OneWord(w: string, rest: string)
    requires w != "" && NoSpace(w) && (rest == "" || IsSpace(rest[0]))
    ensures WordLength(w + rest) == |w|
  {
    if |w| > 1 {
      assert (w + rest)[1..] == w[1..] + rest;
      OneWord(w[1..], rest);
    } else {
      assert (w + rest)[1..] == rest;
    }
  }

  lemma FieldsOfWord(w: string)
    requires w != "" && NoSpace(w)
    ensures Fields(w) == [w]
  {
    assert w + "" == w;
    OneWord(w, "");
    assert w[..|w|] == w && w[|w|..] == "";
  }

  lemma FieldsOfTwoWords(a: string, b: string)
    requires a != "" && NoSpace(a) && b != "" && NoSpace(b)
    ensures Fields(a + " " + b) == [a, b]
  {
    var s := a + " " + b;
    assert s == a + (" " + b);
    OneWord(a, " " + b);
    assert s[..|a|] == a && s[|a|..] == " " + b;
    assert (" " + b)[1..] == b && IsSpace(' ');
    assert Fields(" " + b) == Fields(b);
    FieldsOfWord(b);
  }

  lemma NothingToTrim(s: string)
    requires s != "" && !IsSpace(s[0]) && !IsSpace(s[|s| - 1])
    ensures TrimSpace(s) == s
  {
  }

  lemma {:induction false} ParsedBoundsHaveNoSpace(vr: VersionRange, parts: seq<string>)
    requires NoSpace(vr.min) && NoSpace(vr.max) && forall w | w in parts :: NoSpace(w)
    requires WithSegments(vr, parts).Ok?
    ensures NoSpace(WithSegments(vr, parts).value.min) && NoSpace(WithSegments(vr, parts).value.max)
    decreases |parts|
  {
    if parts != [] {
      assert NoSpace(parts[0]);
      ParsedBoundsHaveNoSpace(WithSegment(vr, parts[0]).value, parts[1..]);
    }
  }

  predicate StartsWithEquals(s: string) {
    s != "" && s[0] == '='
  }

  lemma SegmentOfMin(vr: VersionRange, min: string)
    ensures WithSegment(vr, ">=" + min) == Ok(vr.(min := min))
  {
    assert (">=" + min)[2..] == min;
  }

  lemma SegmentOfMax(vr: VersionRange, max: string)
    ensures WithSegment(vr, "<" + max) == Ok(vr.(max := if StartsWithEquals(max) then max[1..] else max))
  {
    var part := "<" + max;
    assert part[1..] == max;
    if StartsWithEquals(max) {
      assert part[2..] == max[1..] && part[0] == '<' && part[1] == '=';
      assert "<=" <= part;
    } else {
      assert !("<=" <= part) by {
        if max != "" {
          assert part[1] == max[0];
        }
      }
    }
  }

  lemma SegmentsOfOne(vr: VersionRange, part: string)
    ensures WithSegments(vr, [part]) == WithSegment(vr, part)
  {
    assert [part][1..] == [];
  }

  lemma SegmentsOfTwo(vr: VersionRange, a: string, b: string)
    requires WithSegment(vr, a).Ok?
    ensures WithSegments(vr, [a, b]) == WithSegment(WithSegment(vr, a).value, b)
  {
    assert [a, b][1..] == [b];
    SegmentsOfOne(WithSegment(vr, a).value, b);
  }

  /** Parsing the printed text of a range with proper bounds. */
  lemma ParsePrinted(vr: VersionRange)
    requires NoSpace(vr.min) && NoSpace(vr.max)
    ensures Parse(Print(vr)) == Ok(if StartsWithEquals(vr.max) then vr.(max := vr.max[1..]) else vr)
  {
    hide WithSegment, WithSegments, Fields, TrimSpace, IsSpace;
    var none := VersionRange("", "");
    var low, high := ">=" + vr.min, "<" + vr.max;
    BracketsAreNoSpace(vr.min, vr.max);
    SegmentOfMin(none, vr.min);
    SegmentOfMax(none, vr.max);
    SegmentOfMax(none.(min := vr.min), vr.max);
    SegmentsOfOne(none, low);
    SegmentsOfOne(none, high);
    SegmentsOfTwo(none, low, high);
    if vr.min != "" && vr.max != "" {
      assert [low] + [high] == [low, high] && [low, high][1..] == [high];
      assert Print(vr) == Join([low, high]) == low + " " + high;
      NothingToTrim(low + " " + high);
      FieldsOfTwoWords(low, high);
    } else if vr.min != "" {
      assert [low] + [] == [low];
      NothingToTrim(low);
      FieldsOfWord(low);
    } else if vr.max != "" {
      assert [] + [high] == [high];
      NothingToTrim(high);
      FieldsOfWord(high);
    } else {
      EmptyText();
    }
  }

  lemma EmptyText()
    ensures Parse("") == Ok(VersionRange("", ""))
  {
  }

  lemma BracketsAreNoSpace(min: string, max: string)
    requires NoSpace(min) && NoSpace(max)
    ensures NoSpace(">=" + min) && NoSpace("<" + max)
    ensures !IsSpace('>') && !IsSpace('<')
    ensures !IsSpace((">=" + min)[|min| + 1]) && !IsSpace(("<" + max)[|max|])
  {
    assert forall c | c in ">=" + min :: c in min || c == '>' || c == '=';
    assert forall c | c in "<" + max :: c in max || c == '<';
    assert (">=" + min)[|min| + 1] in ">=" + min && ("<" + max)[|max|] in "<" + max;
  }

  /**
   A range survives printing and parsing exactly when its bounds hold no whitespace and max does not start
   with '='.
   */
  lemma RoundTripExact(vr: VersionRange)
    ensures Parse(Print(vr)) == Ok(vr) <==> NoSpace(vr.min) && NoSpace(vr.max) && !StartsWithEquals(vr.max)
  {
    if NoSpace(vr.min) && NoSpace(vr.max) {
      ParsePrinted(vr);
    } else if Parse(Print(vr)).Ok? {
      ParsedBoundsHaveNoSpace(VersionRange("", ""), Fields(TrimSpace(Print(vr))));
    }
  }

  /** Each bound with either of its operators, and a word that has none. */
  lemma OperatorsMean(v: string)
    requires v != "" && NoSpace(v) && v[0] != '=' && v[0] != '<' && v[0] != '>'
    ensures Parse(">=" + v) == Parse(">" + v) == Ok(VersionRange(v, ""))
    ensures Parse("<=" + v) == Parse("<" + v) == Ok(VersionRange("", v))
    ensures Parse(v) == Err(InvalidSegment(v))
  {
    hide Parse, WithSegment, NoSpace;
    WordParses("", v);
    WordParses(">", v);
    WordParses(">=", v);
    WordParses("<", v);
    WordParses("<=", v);
    assert "" + v == v;
    OneSegmentMeans(VersionRange("", ""), v);
  }

  lemma OneSegmentMeans(vr: VersionRange, v: string)
    requires v != "" && v[0] != '=' && v[0] != '<' && v[0] != '>'
    ensures WithSegment(vr, ">=" + v) == WithSegment(vr, ">" + v) == Ok(vr.(min := v))
    ensures WithSegment(vr, "<=" + v) == WithSegment(vr, "<" + v) == Ok(vr.(max := v))
    ensures WithSegment(vr, v) == Err(InvalidSegment(v))
  {
    hide WithSegment;
    SegmentOfMin(vr, v);
    SegmentOfMax(vr, v);
    SegmentOfMax(vr, "=" + v);
    assert ("=" + v)[1..] == v && "<" + ("=" + v) == "<=" + v;
    StrictMin(vr, v);
    NoOperator(vr, v);
  }

  lemma StrictMin(vr: VersionRange, v: string)
    requires v != "" && v[0] != '='
    ensures WithSegment(vr, ">" + v) == Ok(vr.(min := v))
  {
    var part := ">" + v;
    assert part[1] == v[0] && part[1..] == v;
  }

  lemma NoOperator(vr: VersionRange, v: string)
    requires v != "" && v[0] != '<' && v[0] != '>'
    ensures WithSegment(vr, v) == Err(InvalidSegment(v))
  {
  }

  /** The later of two bounds of one side wins, and the first word without an operator is the error. */
  lemma LaterWordWins(v: string, w: string)
    requires v != "" && NoSpace(v) && v[0] != '=' && v[0] != '<' && v[0] != '>'
    requires w != "" && NoSpace(w) && w[0] != '=' && w[0] != '<' && w[0] != '>'
    ensures Parse(">=" + v + " " + ">=" + w) == Ok(VersionRange(w, ""))
    ensures Parse("<" + v + " " + "<" + w) == Ok(VersionRange("", w))
    ensures Parse(v + " " + w) == Parse(v + " " + "<" + w) == Err(InvalidSegment(v))
  {
    hide Parse, WithSegment, WithSegments, NoSpace;
    var none := VersionRange("", "");
    OneSegmentMeans(none, v);
    OneSegmentMeans(none.(min := v), w);
    OneSegmentMeans(none.(max := v), w);
    TwoWordsParse(">=", v, ">=", w);
    TwoWordsParse("<", v, "<", w);
    TwoWordsParse("", v, "", w);
    TwoWordsParse("", v, "<", w);
    assert "" + v == v && "" + w == w;
    assert ">=" + v + " " + ">=" + w == ">=" + v + " " + (">=" + w);
    assert "<" + v + " " + "<" + w == "<" + v + " " + ("<" + w);
    assert v + " " + "<" + w == v + " " + ("<" + w);
  }

  lemma OperatorsAreNoSpace(operator: string, v: string)
    requires v != "" && NoSpace(v) && operator in {"", ">", ">=", "<", "<="}
    ensures operator + v != "" && NoSpace(operator + v)
  {
    assert forall c | c in operator :: c in "=<>";
    assert forall c | c in operator + v :: c in operator || c in v;
  }

  lemma TwoWordsParse(p: string, v: string, q: string, w: string)
    requires v != "" && NoSpace(v) && w != "" && NoSpace(w)
    requires p in {"", ">", ">=", "<", "<="} && q in {"", ">", ">=", "<", "<="}
    ensures
      var first := WithSegment(VersionRange("", ""), p + v);
      Parse(p + v + " " + (q + w)) == if first.Err? then first else WithSegment(first.value, q + w)
  {
    hide WithSegment;
    OperatorsAreNoSpace(p, v);
    OperatorsAreNoSpace(q, w);
    TwoFieldsParse(p + v, q + w);
  }

  lemma TwoFieldsParse(a: string, b: string)
    requires a != "" && NoSpace(a) && b != "" && NoSpace(b)
    ensures
      var first := WithSegment(VersionRange("", ""), a);
      Parse(a + " " + b) == if first.Err? then first else WithSegment(first.value, b)
  {
    hide WithSegment, Fields;
    var s := a + " " + b;
    assert a[0] in a && b[|b| - 1] in b && s[0] == a[0] && s[|s| - 1] == b[|b| - 1];
    NothingToTrim(s);
    FieldsOfTwoWords(a, b);
    if WithSegment(VersionRange("", ""), a).Ok? {
      SegmentsOfTwo(VersionRange("", ""), a, b);
    }
  }

  lemma WordParses(operator: string, v: string)
    requires v != "" && NoSpace(v) && operator in {"", ">", ">=", "<", "<="}
    ensures Parse(operator + v) == WithSegment(VersionRange("", ""), operator + v)
  {
    hide WithSegment;
    var w := operator + v;
    OperatorsAreNoSpace(operator, v);
    assert w[0] in w && w[|w| - 1] in w;
    NothingToTrim(w);
    FieldsOfWord(w);
    SegmentsOfOne(VersionRange("", ""), w);
  }

  /** The range <=1, whose maximum is "=1", comes back with maximum "1". */
  lemma LeadingEqualsIsLost()
    ensures Print(VersionRange("", "=1")) == "<=1"
    ensures Parse("<=1") == Ok(VersionRange("", "1"))
  {
    var vr := VersionRange("", "=1");
    assert NoSpace(vr.min) && NoSpace(vr.max);
    ParsePrinted(vr);
    assert vr.max[1..] == "1";
  }
}
