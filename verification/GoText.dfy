/** The few functions of Go's `strings`, `strconv` and `unicode` packages the sources rely on. */
module GoText {
  import opened Wrappers

  /** unicode.IsSpace */
  predicate IsSpace(c: char) {
    || '\t' <= c <= '\r'
    || c in " \U{0085}\U{00A0}\U{1680}\U{2028}\U{2029}\U{202F}\U{205F}\U{3000}"
    || '\U{2000}' <= c <= '\U{200A}'
  }

  predicate NoSpace(s: string) {
    forall c | c in s :: !IsSpace(c)
  }

  function TrimLeft(s: string): (r: string)
    ensures r != "" ==> !IsSpace(r[0])
    ensures |r| <= |s|
  {
    if s != "" && IsSpace(s[0]) then TrimLeft(s[1..]) else s
  }

  function TrimRight(s: string): (r: string)
    ensures r != "" ==> !IsSpace(r[|r| - 1])
    ensures r <= s
  {
    if s != "" && IsSpace(s[|s| - 1]) then TrimRight(s[..|s| - 1]) else s
  }

  /** strings.TrimSpace */
  function TrimSpace(s: string): string {
    TrimRight(TrimLeft(s))
  }

  predicate IsDigit(c: char) {
    '0' <= c <= '9'
  }

  function DecimalValue(digits: string): nat
    requires forall c | c in digits :: IsDigit(c)
  {
    if digits == "" then 0
    else
      assert IsDigit(digits[|digits| - 1]);
      10 * DecimalValue(digits[..|digits| - 1]) + (digits[|digits| - 1] as int - '0' as int)
  }

  const INT64_MIN := -0x8000_0000_0000_0000
  const INT64_MAX := 0x7FFF_FFFF_FFFF_FFFF

  /** strconv.ParseInt(s, 10, 64); None stands for its error. */
  function ParseInt64(s: string): Option<int> {
    if s == "" then None
    else
      var digits := if s[0] == '+' || s[0] == '-' then s[1..] else s;
      if digits == "" || exists c | c in digits :: !IsDigit(c) then None
      else
        var magnitude: int := DecimalValue(digits);
        var n: int := if s[0] == '-' then 0 - magnitude else magnitude;
        if INT64_MIN <= n <= INT64_MAX then Some(n) else None
  }

  const DIGITS := "0123456789"

  /** The decimal text of a number. */
  function Decimal(n: nat): (s: string)
    ensures s != ""
  {
    (if n < 10 then "" else Decimal(n / 10)) + [DIGITS[n % 10]]
  }

  lemma {:induction false} DecimalDigits(n: nat)
    ensures forall c | c in Decimal(n) :: IsDigit(c)
    ensures DecimalValue(Decimal(n)) == n
  {
    var s := Decimal(n);
    var k := |s| - 1;
    assert s[k] == DIGITS[n % 10] && DIGITS[n % 10] as int == '0' as int + n % 10;
    if n >= 10 {
      DecimalDigits(n / 10);
      assert s[..k] == Decimal(n / 10);
      assert forall c | c in s :: c in s[..k] || c == s[k];
    } else {
      assert s[..k] == "" && DecimalValue("") == 0;
    }
  }

  /** The text of a number reads back to it, with or without leading zeros, up to the largest int64. */
  lemma {:induction false} ParseDecimal(n: nat, zeros: string)
    requires forall c | c in zeros :: c == '0'
    ensures ParseInt64(zeros + Decimal(n)) == if n <= INT64_MAX then Some(n) else None
  {
    hide Decimal, DecimalValue;
    var s := zeros + Decimal(n);
    DecimalDigits(n);
    assert IsDigit('0');
    assert forall c | c in s :: c in zeros || c in Decimal(n);
    assert s[0] in s && IsDigit(s[0]);
    LeadingZeros(zeros, Decimal(n));
  }

  /** With a minus sign, down to the smallest int64. */
  lemma ParseNegative(n: nat)
    ensures ParseInt64("-" + Decimal(n)) == if 0 - n >= INT64_MIN then Some(0 - n) else None
  {
    hide Decimal, DecimalValue;
    DecimalDigits(n);
    var s := "-" + Decimal(n);
    assert s[0] == '-' && s[1..] == Decimal(n);
  }

  lemma {:induction false} LeadingZeros(zeros: string, digits: string)
    requires forall c | c in zeros :: c == '0'
    requires forall c | c in digits :: IsDigit(c)
    ensures forall c | c in zeros + digits :: IsDigit(c)
    ensures DecimalValue(zeros + digits) == DecimalValue(digits)
    decreases |zeros| + |digits|
  {
    var s := zeros + digits;
    assert IsDigit('0');
    assert forall c | c in s :: c in zeros || c in digits;
    if digits != "" {
      var k := |digits| - 1;
      assert s[..|s| - 1] == zeros + digits[..k] && s[|s| - 1] == digits[k];
      LeadingZeros(zeros, digits[..k]);
    } else if zeros != "" {
      var k := |zeros| - 1;
      assert zeros[k] in zeros && forall c | c in zeros[..k] :: c in zeros;
      assert s[..|s| - 1] == zeros[..k] + "" && s[|s| - 1] == '0';
      LeadingZeros(zeros[..k], "");
    }
  }
}
