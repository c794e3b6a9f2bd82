/**
 * The permission check of the current client, `throwIfPermissionsNotValide`, as it is
 * written (it rejects the strings its pattern matches) and as its error text says it
 * should behave (accept an octal number between 0 and 1777).
 */
module Permissions {
  import opened Text
  import opened Failures

  /** The permissions `CreateDirectoryAsync` sends when the caller gives none. */
  const DefaultPermissions: string := "755"

  const PermissionsMessage: string := "The value must be any radix-8 integer between 0 and 1777."

  /** 0o1777, the largest permission value the error text admits. */
  const MaxPermission: nat := 1023

  predicate IsOctalDigit(c: char) {
    '0' <= c <= '7'
  }

  predicate AllOctal(s: string) {
    forall i :: 0 <= i < |s| ==> IsOctalDigit(s[i])
  }

  /** The number a string of octal digits denotes (most significant digit first). */
  function OctalValue(s: string): nat
    requires AllOctal(s)
  {
    if |s| == 0 then 0 else OctalValue(s[..|s| - 1]) * 8 + (s[|s| - 1] as int - '0' as int)
  }

  // ---------------------------------------------------------------- as written

  /** `[01][0-7]{0,3}` covering the whole text. */
  predicate PatternBody(s: string) {
    1 <= |s| <= 4 && (s[0] == '0' || s[0] == '1') && AllOctal(s[1..])
  }

  /** `Regex.IsMatch(s, "^[01][0-7]{0,3}$")`: .NET's `$` also matches just before a final line feed. */
  predicate MatchesValidatorPattern(s: string) {
    || PatternBody(s)
    || (|s| >= 1 && s[|s| - 1] == '\n' && PatternBody(s[..|s| - 1]))
  }

  /**
   * `throwIfPermissionsNotValide` as written: it throws exactly when the pattern
   * MATCHES, and builds its `ArgumentException` with the parameter name as the message
   * and the explanation as the parameter name.
   */
  function ThrowIfPermissionsNotValid(permissions: string): (r: Outcome<bool>)
    ensures r.Err? <==> MatchesValidatorPattern(permissions)
    ensures r.Ok? ==> r.value
    ensures r.Err? ==> r.failure == InvalidArgument("permissions", PermissionsMessage)
  {
    if MatchesValidatorPattern(permissions) then Err(InvalidArgument("permissions", PermissionsMessage))
    else Ok(true)
  }

  // ---------------------------------------------------------------- as intended

  /** What the error text asks for: one to four octal digits denoting at most 0o1777. */
  predicate IsValidPermission(s: string) {
    1 <= |s| <= 4 && AllOctal(s) && OctalValue(s) <= MaxPermission
  }

  /** The pattern that states the error text: `^([0-7]{1,3}|[01][0-7]{3})$`. */
  predicate IntendedPattern(s: string) {
    || (1 <= |s| <= 3 && AllOctal(s))
    || (|s| == 4 && (s[0] == '0' || s[0] == '1') && AllOctal(s[1..]))
  }

  function Pow8(n: nat): (r: nat)
    ensures r >= 1
  {
    if n == 0 then 1 else 8 * Pow8(n - 1)
  }

  /** A string of n octal digits denotes less than 8^n. */
  lemma {:induction false} OctalValueBound(s: string)
    requires AllOctal(s)
    ensures OctalValue(s) < Pow8(|s|)
    ensures |s| <= 3 ==> OctalValue(s) <= 511
    decreases |s|
  {
    if |s| > 0 {
      OctalValueBound(s[..|s| - 1]);
      assert OctalValue(s) <= (Pow8(|s| - 1) - 1) * 8 + 7;
    }
    assert Pow8(3) == 512 && Pow8(2) == 64 && Pow8(1) == 8;
    if |s| <= 3 {
      PowMonotone(|s|, 3);
    }
  }

  lemma {:induction false} PowMonotone(a: nat, b: nat)
    requires a <= b
    ensures Pow8(a) <= Pow8(b)
    decreases b - a
  {
    if a < b {
      PowMonotone(a + 1, b);
    }
  }

  /** A four-digit value is its first digit times 512 plus the value of the other three. */
  lemma FourDigitValue(s: string)
    requires |s| == 4 && AllOctal(s)
    ensures OctalValue(s) == (s[0] as int - '0' as int) * 512 + OctalValue(s[1..])
  {
    var t := s[1..];
    assert s[..3][..2][..1] == [s[0]];
    assert t[..2][..1] == [s[1]];
    assert s[..3][..2] == [s[0], s[1]];
    assert t[..2] == [s[1], s[2]];
    assert s[..3] == [s[0], s[1], s[2]];
    assert t == [s[1], s[2], s[3]];
    assert OctalValue([s[0]]) == s[0] as int - '0' as int;
    assert OctalValue([s[1]]) == s[1] as int - '0' as int;
  }

  /** The intended pattern accepts exactly the octal strings the error text admits. */
  lemma IntendedPatternIsValid(s: string)
    ensures IntendedPattern(s) <==> IsValidPermission(s)
  {
    if 1 <= |s| <= 4 && AllOctal(s) {
      OctalValueBound(s);
      if |s| == 4 {
        OctalValueBound(s[1..]);
        FourDigitValue(s);
      }
    }
  }

  /** The check as intended: reject what the error text does not admit, with message and name in their places. */
  function CheckPermissions(permissions: string): (r: Outcome<bool>)
    ensures r.Ok? <==> IsValidPermission(permissions)
    ensures r.Ok? ==> r.value
    ensures r.Err? ==> r.failure == InvalidArgument(PermissionsMessage, "permissions")
  {
    IntendedPatternIsValid(permissions);
    if IntendedPattern(permissions) then Ok(true) else Err(InvalidArgument(PermissionsMessage, "permissions"))
  }

  // ---------------------------------------------------------------- the mismatch

  /** Among admissible values, the as-written check rejects exactly those starting with 0 or 1. */
  lemma AsWrittenRejectsValidValues(s: string)
    requires IsValidPermission(s)
    ensures ThrowIfPermissionsNotValid(s).Err? <==> s[0] == '0' || s[0] == '1'
  {
    assert s[|s| - 1] != '\n';
  }

  /** Every string the as-written check rejects is admissible, up to a final line feed. */
  lemma AsWrittenRejectsOnlyValid(s: string)
    requires ThrowIfPermissionsNotValid(s).Err?
    ensures IsValidPermission(s) || (s[|s| - 1] == '\n' && IsValidPermission(s[..|s| - 1]))
  {
    if PatternBody(s) {
      IntendedPatternIsValid(s);
    } else {
      IntendedPatternIsValid(s[..|s| - 1]);
    }
  }

  /** The default "755" passes both checks. */
  lemma DefaultPermissionsPass()
    ensures ThrowIfPermissionsNotValid(DefaultPermissions).Ok?
    ensures CheckPermissions(DefaultPermissions).Ok?
  {
    assert OctalValue("755") == 493 by {
      assert "755"[..2] == "75";
      assert "75"[..1] == "7";
    }
  }

  /** "1777", which the error text admits, is rejected as written; "2000", which it does not, passes. */
  lemma AsWrittenExamples()
    ensures ThrowIfPermissionsNotValid("1777").Err? && IsValidPermission("1777")
    ensures ThrowIfPermissionsNotValid("2000").Ok? && !IsValidPermission("2000")
    ensures CheckPermissions("1777").Ok? && CheckPermissions("2000").Err?
  {
    FourDigitValue("1777");
    FourDigitValue("2000");
    assert OctalValue("777") == 511 by {
      assert "777"[..2] == "77";
      assert "77"[..1] == "7";
    }
    assert OctalValue("000") == 0 by {
      assert "000"[..2] == "00";
      assert "00"[..1] == "0";
    }
  }
}
