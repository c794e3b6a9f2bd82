/**
 * String helpers of the .NET base library that the client leans on:
 * `string.IsNullOrWhiteSpace`, `TrimStart(char)`, decimal rendering of
 * integers (`ToString()`) and the integer parse behind `Convert.ChangeType`.
 */
module Text {
  import opened Opt

  /** `char.IsWhiteSpace`: the Unicode space separators plus the C0/C1 controls .NET counts as white. */
  predicate IsWhiteSpace(c: char) {
    || ('\t' <= c <= '\r')
    || c == ' ' || c == '\U{0085}' || c == '\U{00A0}' || c == '\U{1680}'
    || ('\U{2000}' <= c <= '\U{200A}')
    || c == '\U{2028}' || c == '\U{2029}' || c == '\U{202F}' || c == '\U{205F}' || c == '\U{3000}'
  }

  /** `string.IsNullOrWhiteSpace` for a non-null string: empty or made of white space only. */
  predicate IsBlank(s: string) {
    forall i :: 0 <= i < |s| ==> IsWhiteSpace(s[i])
  }

  predicate StartsWith(s: string, prefix: string) {
    |prefix| <= |s| && s[..|prefix|] == prefix
  }

  predicate EndsWith(s: string, suffix: string) {
    |suffix| <= |s| && s[|s| - |suffix|..] == suffix
  }

  /** A prefix of `s` stays a prefix of anything `s` is extended with. */
  lemma StartsWithExtended(s: string, t: string, prefix: string)
    requires StartsWith(s, prefix)
    ensures StartsWith(s + t, prefix)
  {
    assert (s + t)[..|prefix|] == s[..|prefix|];
  }

  /** `s.TrimStart(ch)`: drops every leading occurrence of `ch`, and nothing else. */
  function TrimStart(s: string, ch: char): (r: string)
    ensures |r| <= |s| && r == s[|s| - |r|..]
    ensures forall i :: 0 <= i < |s| - |r| ==> s[i] == ch
    ensures |r| == 0 || r[0] != ch
  {
    if |s| > 0 && s[0] == ch then TrimStart(s[1..], ch) else s
  }

  // ---------------------------------------------------------------- decimal digits

  predicate IsDigit(c: char) {
    '0' <= c <= '9'
  }

  predicate AllDigits(s: string) {
    forall i :: 0 <= i < |s| ==> IsDigit(s[i])
  }

  function DigitChar(d: nat): (c: char)
    requires d < 10
    ensures IsDigit(c) && c as int - '0' as int == d
  {
    ('0' as int + d) as char
  }

  /** The number a string of decimal digits denotes (most significant digit first). */
  function DigitsValue(s: string): nat
    requires AllDigits(s)
  {
    if |s| == 0 then 0 else DigitsValue(s[..|s| - 1]) * 10 + (s[|s| - 1] as int - '0' as int)
  }

  /** `n.ToString()` for a non-negative integer: the shortest decimal form, no sign, no padding. */
  function NatToString(n: nat): (s: string)
    ensures 1 <= |s| && AllDigits(s)
    ensures |s| > 1 ==> s[0] != '0'
  {
    if n < 10 then [DigitChar(n)] else NatToString(n / 10) + [DigitChar(n % 10)]
  }

  /** `i.ToString()` with the invariant culture: a leading '-' for negative numbers. */
  function IntToString(i: int): (s: string)
    ensures 1 <= |s|
  {
    if i < 0 then "-" + NatToString(-i) else NatToString(i)
  }

  /** Reading the decimal form back gives the number that was rendered. */
  lemma {:induction false} NatToStringRoundTrip(n: nat)
    ensures DigitsValue(NatToString(n)) == n
  {
    if n >= 10 {
      var p := NatToString(n / 10);
      NatToStringRoundTrip(n / 10);
      assert NatToString(n) == p + [DigitChar(n % 10)];
      assert (p + [DigitChar(n % 10)])[..|p|] == p;
    }
  }

  /** Distinct numbers render to distinct strings. */
  lemma NatToStringInjective(a: nat, b: nat)
    requires NatToString(a) == NatToString(b)
    ensures a == b
  {
    NatToStringRoundTrip(a);
    NatToStringRoundTrip(b);
  }

  // ---------------------------------------------------------------- integer parsing

  /** The white space `NumberStyles.Integer` lets surround a number: U+0009..U+000D and U+0020. */
  predicate IsNumberWhite(c: char) {
    ('\t' <= c <= '\r') || c == ' '
  }

  function TrimNumberWhite(s: string): (r: string)
    ensures |r| <= |s|
    ensures |r| == 0 || (!IsNumberWhite(r[0]) && !IsNumberWhite(r[|r| - 1]))
    ensures |s| > 0 && !IsNumberWhite(s[0]) && !IsNumberWhite(s[|s| - 1]) ==> r == s
  {
    if |s| > 0 && IsNumberWhite(s[0]) then TrimNumberWhite(s[1..])
    else if |s| > 0 && IsNumberWhite(s[|s| - 1]) then TrimNumberWhite(s[..|s| - 1])
    else s
  }

  /**
   * `Int32.Parse(s, NumberStyles.Integer, InvariantCulture)` without the range check:
   * optional surrounding white space, an optional '+' or '-', then at least one digit.
   */
  function ParseInteger(s: string): Option<int> {
    var t := TrimNumberWhite(s);
    if |t| == 0 then None
    else if t[0] == '-' || t[0] == '+' then
      var digits := t[1..];
      if |digits| == 0 || !AllDigits(digits) then None
      else if t[0] == '-' then Some(0 - DigitsValue(digits) as int)
      else Some(DigitsValue(digits))
    else if AllDigits(t) then Some(DigitsValue(t))
    else None
  }

  /** Parsing the invariant-culture rendering of an integer gives the integer back. */
  lemma IntToStringParses(i: int)
    ensures ParseInteger(IntToString(i)) == Some(i)
  {
    var s := IntToString(i);
    if i < 0 {
      var d := NatToString(-i);
      assert s == "-" + d;
      assert s[|s| - 1] == d[|d| - 1];
      assert TrimNumberWhite(s) == s;
      assert s[1..] == d;
      NatToStringRoundTrip(-i);
    } else {
      assert TrimNumberWhite(s) == s;
      NatToStringRoundTrip(i);
    }
  }
}
