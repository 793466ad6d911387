/** Python's `str.strip`. */
module PyText {

  /** str.isspace on one character. */
  predicate IsSpace(c: char) {
    || '\t' <= c <= '\r'
    || '\U{001C}' <= c <= '\U{001F}'
    || c in " \U{0085}\U{00A0}\U{1680}\U{2028}\U{2029}\U{202F}\U{205F}\U{3000}"
    || '\U{2000}' <= c <= '\U{200A}'
  }

  function StripLeft(s: string): (r: string)
    ensures r != "" ==> !IsSpace(r[0])
  {
    if s != "" && IsSpace(s[0]) then StripLeft(s[1..]) else s
  }

  function StripRight(s: string): (r: string)
    ensures r != "" ==> !IsSpace(r[|r| - 1])
    ensures r <= s
  {
    if s != "" && IsSpace(s[|s| - 1]) then StripRight(s[..|s| - 1]) else s
  }

  function Strip(s: string): string {
    StripRight(StripLeft(s))
  }

  lemma {:induction false} LeftMeaning(s: string) returns (i: nat)
    ensures i <= |s| && StripLeft(s) == s[i..]
    ensures forall c | c in s[..i] :: IsSpace(c)
  {
    i := 0;
    if s != "" && IsSpace(s[0]) {
      var j := LeftMeaning(s[1..]);
      i := j + 1;
      assert s[..i] == [s[0]] + s[1..][..j];
    }
  }

  lemma {:induction false} RightMeaning(s: string) returns (j: nat)
    ensures j <= |s| && StripRight(s) == s[..j]
    ensures forall c | c in s[j..] :: IsSpace(c)
  {
    j := |s|;
    if s != "" && IsSpace(s[|s| - 1]) {
      var n := |s| - 1;
      j := RightMeaning(s[..n]);
      assert s[j..] == s[..n][j..] + [s[n]];
    }
  }

  /** Whitespace is cut off at both ends, and nothing else: what is left neither starts nor ends with whitespace. */
  lemma StripMeaning(s: string) returns (i: nat, j: nat)
    ensures i <= j <= |s| && Strip(s) == s[i..j]
    ensures forall c | c in s[..i] + s[j..] :: IsSpace(c)
    ensures i < j ==> !IsSpace(s[i]) && !IsSpace(s[j - 1])
  {
    i := LeftMeaning(s);
    var n := RightMeaning(s[i..]);
    hide IsSpace, StripRight, StripLeft;
    j := i + n;
    assert s[i..][..n] == s[i..j] && s[i..][n..] == s[j..];
    assert s[..i] + s[j..] == s[..i] + s[i..][n..];
    if i < j {
      assert StripLeft(s)[0] == s[i] && Strip(s)[|Strip(s)| - 1] == s[j - 1];
    }
  }

  lemma StripIdempotent(s: string)
    ensures Strip(Strip(s)) == Strip(s)
  {
    var t := Strip(s);
    if t != "" {
      assert t <= StripLeft(s);
      assert t[0] == StripLeft(s)[0];
    }
  }
}
