/**
 * The string operations of the Kotlin standard library that the core uses:
 * `Int.toString()`, `padStart`, `isBlank`, `contains` (with and without
 * `ignoreCase`) and the natural order `String.compareTo`.
 */
module Text {

  // ----- Decimal rendering: Int.toString() -----

  function DigitChar(d: nat): (c: char)
    requires d < 10
    ensures '0' <= c <= '9'
  {
    ['0', '1', '2', '3', '4', '5', '6', '7', '8', '9'][d]
  }

  function DigitValue(c: char): (d: nat)
    requires '0' <= c <= '9'
    ensures d < 10 && DigitChar(d) == c
  {
    if c == '0' then 0 else if c == '1' then 1 else if c == '2' then 2
    else if c == '3' then 3 else if c == '4' then 4 else if c == '5' then 5
    else if c == '6' then 6 else if c == '7' then 7 else if c == '8' then 8
    else 9
  }

  predicate IsDigits(s: string) {
    forall i :: 0 <= i < |s| ==> '0' <= s[i] <= '9'
  }

  /** Decimal digits of `n`, most significant first, without leading zeros. */
  function NatToDecimal(n: nat): (s: string)
    ensures |s| >= 1 && IsDigits(s)
    ensures s[0] == '0' ==> n == 0
  {
    if n < 10 then [DigitChar(n)] else NatToDecimal(n / 10) + [DigitChar(n % 10)]
  }

  /** `Int.toString()`: a minus sign before the digits of a negative number. */
  function IntToDecimal(i: int): string {
    if i < 0 then "-" + NatToDecimal(-i) else NatToDecimal(i)
  }

  /** The number a string of decimal digits denotes; the partner of NatToDecimal. */
  function DecimalValue(s: string): nat
    requires IsDigits(s)
  {
    if s == [] then 0 else DecimalValue(s[..|s| - 1]) * 10 + DigitValue(s[|s| - 1])
  }

  lemma DigitRoundTrip(d: nat)
    requires d < 10
    ensures DigitValue(DigitChar(d)) == d
  {
  }

  lemma {:induction false} DecimalRoundTrip(n: nat)
    ensures DecimalValue(NatToDecimal(n)) == n
  {
    var s := NatToDecimal(n);
    if n < 10 {
      assert s == [DigitChar(n)] && s[..0] == [];
      DigitRoundTrip(n);
    } else {
      var prefix := NatToDecimal(n / 10);
      assert s == prefix + [DigitChar(n % 10)];
      assert s[..|s| - 1] == prefix;
      DigitRoundTrip(n % 10);
      DecimalRoundTrip(n / 10);
    }
  }

  /** Different numbers have different renderings (Int.toString is injective). */
  lemma IntToDecimalInjective(a: int, b: int)
    requires IntToDecimal(a) == IntToDecimal(b)
    ensures a == b
  {
    if a < 0 && b < 0 {
      NegativesInjective(a, b);
    } else if a >= 0 && b >= 0 {
      NonNegativeRendering(a);
      NonNegativeRendering(b);
      NatToDecimalInjective(a, b);
    } else if a < 0 {
      SignsDiffer(a, b);
    } else {
      SignsDiffer(b, a);
    }
  }

  lemma NegativesInjective(a: int, b: int)
    requires a < 0 && b < 0 && IntToDecimal(a) == IntToDecimal(b)
    ensures a == b
  {
    NegativeRendering(a);
    NegativeRendering(b);
    NatToDecimalInjective(-a, -b);
  }

  /** A negative number's rendering starts with `-`, a non-negative one's with a digit. */
  lemma SignsDiffer(a: int, b: int)
    requires a < 0 <= b
    ensures IntToDecimal(a)[0] != IntToDecimal(b)[0]
  {
    NegativeRendering(a);
    NonNegativeRendering(b);
  }

  lemma NatToDecimalInjective(a: nat, b: nat)
    requires NatToDecimal(a) == NatToDecimal(b)
    ensures a == b
  {
    DecimalRoundTrip(a);
    DecimalRoundTrip(b);
  }

  lemma NonNegativeRendering(i: int)
    requires i >= 0
    ensures var s := IntToDecimal(i); s == NatToDecimal(i) && '0' <= s[0] <= '9'
  {
  }

  lemma NegativeRendering(i: int)
    requires i < 0
    ensures var s := IntToDecimal(i); |s| >= 2 && s[0] == '-' && s[1..] == NatToDecimal(-i)
  {
  }

  /** A number has at least three digits exactly when it is at least 100. */
  lemma {:induction false} DecimalLengthAtLeastThree(n: nat)
    ensures |NatToDecimal(n)| >= 3 <==> n >= 100
  {
    if n >= 10 {
      DecimalLengthAtLeastTwo(n / 10);
    }
  }

  lemma {:induction false} DecimalLengthAtLeastTwo(n: nat)
    ensures |NatToDecimal(n)| >= 2 <==> n >= 10
  {
    if n >= 10 {
      assert |NatToDecimal(n / 10)| >= 1;
    }
  }

  // ----- padStart -----

  /** `s.padStart(width, pad)`: `pad` repeated in front of `s` up to `width` characters. */
  function PadStart(s: string, width: nat, pad: char): string {
    if |s| >= width then s else seq(width - |s|, _ => pad) + s
  }

  /** The padded string is `width` long (or `s` when longer), ends in `s` and is `pad` before it. */
  lemma PadStartShape(s: string, width: nat, pad: char)
    ensures var r := PadStart(s, width, pad);
      && |r| == (if |s| >= width then |s| else width)
      && r[|r| - |s|..] == s
      && (forall i :: 0 <= i < |r| - |s| ==> r[i] == pad)
  {
  }

  /** Leading zeros do not change the value of a digit string. */
  lemma {:induction false} LeadingZerosIgnored(k: nat, s: string)
    requires IsDigits(s)
    ensures IsDigits(seq(k, _ => '0') + s)
    ensures DecimalValue(seq(k, _ => '0') + s) == DecimalValue(s)
    decreases |s|
  {
    var z := seq(k, _ => '0');
    var zs := z + s;
    assert IsDigits(zs) by {
      forall i | 0 <= i < |zs| ensures '0' <= zs[i] <= '9' {
        if i >= k { assert zs[i] == s[i - k]; }
      }
    }
    if s == [] {
      assert zs == z;
      ZerosAreZero(k);
    } else {
      var p := s[..|s| - 1];
      assert zs[..|zs| - 1] == z + p;
      assert zs[|zs| - 1] == s[|s| - 1];
      LeadingZerosIgnored(k, p);
    }
  }

  lemma {:induction false} ZerosAreZero(k: nat)
    ensures IsDigits(seq(k, _ => '0')) && DecimalValue(seq(k, _ => '0')) == 0
  {
    if k > 0 {
      var z := seq(k, _ => '0');
      assert z[..k - 1] == seq(k - 1, _ => '0');
      ZerosAreZero(k - 1);
    }
  }

  /** A number rendered and zero-padded is still all digits and reads back as the number. */
  lemma PaddedDecimalValue(n: nat, width: nat)
    ensures IsDigits(PadStart(NatToDecimal(n), width, '0'))
    ensures DecimalValue(PadStart(NatToDecimal(n), width, '0')) == n
  {
    var s := NatToDecimal(n);
    DecimalRoundTrip(n);
    if |s| < width {
      LeadingZerosIgnored(width - |s|, s);
    }
  }

  /** Zero padding to width 3 leaves the rendering of a number of at least 100 as it is. */
  lemma PadKeepsLongNumbers(n: nat)
    ensures PadStart(NatToDecimal(n), 3, '0') == NatToDecimal(n) <==> n >= 100
  {
    DecimalLengthAtLeastThree(n);
  }

  /** A run of digits ends at the first non-digit separator, so `digits + sep + rest` splits one way only. */
  lemma DigitsBeforeSeparator(a1: string, r1: string, a2: string, r2: string, sep: char)
    requires IsDigits(a1) && IsDigits(a2) && !('0' <= sep <= '9')
    requires a1 + [sep] + r1 == a2 + [sep] + r2
    ensures a1 == a2 && r1 == r2
  {
    var x := a1 + [sep] + r1;
    assert x[|a1|] == sep && x[|a2|] == sep;
    assert forall i :: 0 <= i < |a1| ==> x[i] == a1[i];
    assert forall i :: 0 <= i < |a2| ==> x[i] == a2[i];
    assert a1 == x[..|a1|] && a2 == x[..|a2|];
    assert r1 == x[|a1| + 1..] && r2 == x[|a2| + 1..];
  }

  // ----- isBlank -----

  /**
   * Kotlin's `Char.isWhitespace()` on the JVM: `Character.isWhitespace` or
   * `Character.isSpaceChar`, i.e. the control characters TAB, LF, VT, FF, CR
   * and FS, GS, RS, US, plus every space, line and paragraph separator.
   */
  predicate IsWhitespace(c: char) {
    || ('\t' <= c <= '\r')
    || ('\U{1C}' <= c <= '\U{1F}')
    || c == ' ' || c == '\U{A0}' || c == '\U{1680}'
    || ('\U{2000}' <= c <= '\U{200A}')
    || c == '\U{2028}' || c == '\U{2029}' || c == '\U{202F}'
    || c == '\U{205F}' || c == '\U{3000}'
  }

  /** `s.isBlank()`: empty, or whitespace only. */
  predicate IsBlank(s: string) {
    forall i :: 0 <= i < |s| ==> IsWhitespace(s[i])
  }

  // ----- contains -----

  /** Upper-case mapping, restricted to the ASCII letters. */
  function AsciiUpper(c: char): (u: char)
    ensures 'a' <= c <= 'z' ==> 'A' <= u <= 'Z' && u as int == c as int - 32
    ensures !('a' <= c <= 'z') ==> u == c
  {
    if 'a' <= c <= 'z' then (c as int - 32) as char else c
  }

  /** `Char.equals(other, ignoreCase)`. */
  predicate CharEquals(a: char, b: char, ignoreCase: bool) {
    a == b || (ignoreCase && AsciiUpper(a) == AsciiUpper(b))
  }

  /** `query` occurs in `text` starting at index `i`. */
  predicate RegionMatches(text: string, i: nat, query: string, ignoreCase: bool)
    requires i + |query| <= |text|
  {
    forall j :: 0 <= j < |query| ==> CharEquals(text[i + j], query[j], ignoreCase)
  }

  /** `text.contains(query, ignoreCase)`. */
  predicate Contains(text: string, query: string, ignoreCase: bool) {
    exists i: nat :: i + |query| <= |text| && RegionMatches(text, i, query, ignoreCase)
  }

  // ----- String.compareTo -----

  /**
   * `a.compareTo(b) <= 0`: the first differing character decides, and a
   * proper prefix comes first.
   */
  predicate LexLe(a: string, b: string) {
    if a == [] then true
    else if b == [] then false
    else if a[0] != b[0] then a[0] < b[0]
    else LexLe(a[1..], b[1..])
  }

  lemma {:induction false} LexLeReflexive(a: string)
    ensures LexLe(a, a)
  {
    if a != [] { LexLeReflexive(a[1..]); }
  }

  lemma {:induction false} LexLeTotal(a: string, b: string)
    ensures LexLe(a, b) || LexLe(b, a)
  {
    if a != [] && b != [] && a[0] == b[0] { LexLeTotal(a[1..], b[1..]); }
  }

  lemma {:induction false} LexLeAntisymmetric(a: string, b: string)
    requires LexLe(a, b) && LexLe(b, a)
    ensures a == b
  {
    if a != [] && b != [] {
      LexLeAntisymmetric(a[1..], b[1..]);
      assert a == [a[0]] + a[1..] && b == [b[0]] + b[1..];
    }
  }

  lemma {:induction false} LexLeTransitive(a: string, b: string, c: string)
    requires LexLe(a, b) && LexLe(b, c)
    ensures LexLe(a, c)
  {
    if a != [] && b != [] && c != [] && a[0] == b[0] == c[0] {
      LexLeTransitive(a[1..], b[1..], c[1..]);
    }
  }
}
