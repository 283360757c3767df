/**
 * Text as SQLite and JavaScript see it: the binary (code-point by code-point)
 * ordering SQLite uses to compare TEXT values, and decimal rendering of integers
 * as `Number.prototype.toString` produces it.
 */
module Text {
  import opened Optional

  /**
   * SQLite's BINARY collation: compare character by character, and when one
   * string is a prefix of the other the shorter one sorts first.
   */
  predicate LexLe(a: string, b: string) {
    if a == [] then true
    else if b == [] then false
    else if a[0] != b[0] then a[0] < b[0]
    else LexLe(a[1..], b[1..])
  }

  lemma {:induction false} LexLeReflexive(a: string)
    ensures LexLe(a, a)
  {
    if a != [] {
      LexLeReflexive(a[1..]);
    }
  }

  lemma {:induction false} LexLeTotal(a: string, b: string)
    ensures LexLe(a, b) || LexLe(b, a)
  {
    if a != [] && b != [] && a[0] == b[0] {
      LexLeTotal(a[1..], b[1..]);
    }
  }

  lemma {:induction false} LexLeAntisymmetric(a: string, b: string)
    requires LexLe(a, b) && LexLe(b, a)
    ensures a == b
  {
    if a != [] && b != [] {
      LexLeAntisymmetric(a[1..], b[1..]);
      assert a == [a[0]] + a[1..];
      assert b == [b[0]] + b[1..];
    }
  }

  lemma {:induction false} LexLeTransitive(a: string, b: string, c: string)
    requires LexLe(a, b) && LexLe(b, c)
    ensures LexLe(a, c)
  {
    if a != [] && b != [] && c != [] && a[0] == b[0] && b[0] == c[0] {
      LexLeTransitive(a[1..], b[1..], c[1..]);
    }
  }

  /**
   * A string followed by anything at all sorts strictly after the string itself:
   * `'2024-05-01T09:30:00.000Z'` is not `<= '2024-05-01'`.
   */
  lemma {:induction false} ExtensionSortsAfter(s: string, suffix: string)
    requires suffix != []
    ensures !LexLe(s + suffix, s)
    ensures LexLe(s, s + suffix)
  {
    if s == [] {
      assert s + suffix == suffix;
    } else {
      assert (s + suffix)[0] == s[0];
      assert (s + suffix)[1..] == s[1..] + suffix;
      ExtensionSortsAfter(s[1..], suffix);
    }
  }

  /**
   * Of two different strings of the same length, the smaller stays below the
   * larger when text is appended to it: they already differ within that length.
   */
  lemma {:induction false} SameLengthBelow(a: string, b: string, suffix: string)
    requires |a| == |b| && a != b && LexLe(a, b)
    ensures LexLe(a + suffix, b)
  {
    assert (a + suffix)[0] == a[0];
    if a[0] == b[0] {
      assert (a + suffix)[1..] == a[1..] + suffix;
      assert a[1..] != b[1..] by {
        assert a == [a[0]] + a[1..] && b == [b[0]] + b[1..];
      }
      SameLengthBelow(a[1..], b[1..], suffix);
    }
  }

  /** Strings that agree up to a first differing character are ordered by that character. */
  lemma {:induction false} FirstDifferenceDecides(prefix: string, a: string, b: string)
    requires a != [] && b != [] && a[0] < b[0]
    ensures LexLe(prefix + a, prefix + b)
  {
    if prefix == [] {
      assert prefix + a == a && prefix + b == b;
    } else {
      assert (prefix + a)[1..] == prefix[1..] + a;
      assert (prefix + b)[1..] == prefix[1..] + b;
      FirstDifferenceDecides(prefix[1..], a, b);
    }
  }

  predicate IsDigit(c: char) {
    '0' <= c <= '9'
  }

  function DigitChar(d: nat): (c: char)
    requires d < 10
    ensures IsDigit(c)
  {
    ['0', '1', '2', '3', '4', '5', '6', '7', '8', '9'][d]
  }

  function DigitValue(c: char): (d: nat)
    requires IsDigit(c)
    ensures d < 10 && DigitChar(d) == c
  {
    (c as int - '0' as int) as nat
  }

  /** The decimal digits of `n`, most significant first, without leading zeros. */
  function NatDigits(n: nat): (s: string)
    ensures s != []
    ensures forall i :: 0 <= i < |s| ==> IsDigit(s[i])
    ensures n < 10 <==> |s| == 1
    ensures s[0] == '0' ==> n == 0 && s == "0"
  {
    if n < 10 then [DigitChar(n)] else NatDigits(n / 10) + [DigitChar(n % 10)]
  }

  /** `n.toString()` for an integer `n`. */
  function IntToDecimal(n: int): (s: string)
    ensures s != []
    ensures n < 0 <==> s[0] == '-'
    ensures n >= 0 && s[0] == '0' ==> n == 0 && s == "0"
    ensures n < 0 ==> |s| >= 2 && s[1] != '0'
  {
    if n < 0 then "-" + NatDigits(-n) else NatDigits(n)
  }

  /** Reads a non-empty string of decimal digits; anything else is rejected. */
  function ParseNat(s: string): (r: Option<nat>)
    ensures r.Some? <==> s != [] && forall i :: 0 <= i < |s| ==> IsDigit(s[i])
  {
    if s == [] then None
    else if !IsDigit(s[|s| - 1]) then None
    else if |s| == 1 then Some(DigitValue(s[0]))
    else match ParseNat(s[..|s| - 1])
         case None => None
         case Some(high) => Some(high * 10 + DigitValue(s[|s| - 1]))
  }

  /** Reads what `IntToDecimal` writes: an optional minus sign and decimal digits. */
  function ParseInt(s: string): Option<int> {
    if s != [] && s[0] == '-' then
      var magnitude := ParseNat(s[1..]);
      if magnitude.None? || magnitude.value == 0 then None else Some(0 - magnitude.value)
    else
      var magnitude := ParseNat(s);
      if magnitude.None? then None else Some(magnitude.value)
  }

  lemma {:induction false} ParseNatDigits(n: nat)
    ensures ParseNat(NatDigits(n)) == Some(n)
  {
    if n >= 10 {
      var s := NatDigits(n);
      assert s[..|s| - 1] == NatDigits(n / 10);
      ParseNatDigits(n / 10);
    }
  }

  /** Decimal rendering is undone by decimal reading, so no two integers render alike. */
  lemma ParseIntDecimal(n: int)
    ensures ParseInt(IntToDecimal(n)) == Some(n)
  {
    if n < 0 {
      ParseNatDigits(-n);
      ParseIntSigned(NatDigits(-n), -n);
      assert IntToDecimal(n) == "-" + NatDigits(-n);
    } else {
      ParseNatDigits(n);
      ParseIntUnsigned(NatDigits(n), n);
      assert IntToDecimal(n) == NatDigits(n);
    }
  }

  /** A minus sign before the digits of a positive number reads as its negation. */
  lemma ParseIntSigned(digits: string, m: int)
    requires m > 0 && ParseNat(digits) == Some(m)
    ensures ParseInt("-" + digits) == Some(0 - m)
  {
    assert ("-" + digits)[1..] == digits;
  }

  /** Digits with no sign read as the number they spell. */
  lemma ParseIntUnsigned(digits: string, m: nat)
    requires ParseNat(digits) == Some(m)
    ensures ParseInt(digits) == Some(m)
  {
    assert IsDigit(digits[0]);
  }

  lemma DecimalInjective(m: int, n: int)
    requires IntToDecimal(m) == IntToDecimal(n)
    ensures m == n
  {
    ParseIntDecimal(m);
    ParseIntDecimal(n);
  }
}
