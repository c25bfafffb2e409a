/**
  Text helpers shared by the model: decimal digits, zero-padded numbers (the
  `%02d` / `%04d` conversions of `strftime`), Python's `str(int)`, and the
  BINARY collation SQLite uses to compare and order TEXT values.

  Strings are `seq<char>` whose elements are Unicode scalar values; UTF-8
  preserves code-point order, so comparing code points is the same as the
  `memcmp` of the UTF-8 bytes that SQLite performs.
*/
module Text {
  import opened Wrappers
  import opened Sorting

  predicate IsDigit(c: char) {
    '0' <= c <= '9'
  }

  predicate AllDigits(s: string) {
    forall i :: 0 <= i < |s| ==> IsDigit(s[i])
  }

  function DigitValue(c: char): (d: nat)
    requires IsDigit(c)
    ensures d < 10
  {
    c as int - '0' as int
  }

  function DigitChar(d: nat): (c: char)
    requires d < 10
    ensures IsDigit(c) && DigitValue(c) == d
  {
    ('0' as int + d) as char
  }

  function Pow10(k: nat): (p: nat)
    ensures p >= 1
  {
    if k == 0 then 1 else 10 * Pow10(k - 1)
  }

  /** The number a string of decimal digits denotes, most significant digit first. */
  function Value(s: string): (v: nat)
    requires AllDigits(s)
    ensures v < Pow10(|s|)
  {
    if |s| == 0 then 0
    else
      var rest := Value(s[1..]);
      assert DigitValue(s[0]) * Pow10(|s| - 1) + rest < (DigitValue(s[0]) + 1) * Pow10(|s| - 1);
      assert (DigitValue(s[0]) + 1) * Pow10(|s| - 1) <= 10 * Pow10(|s| - 1);
      DigitValue(s[0]) * Pow10(|s| - 1) + rest
  }

  /** `n` written with exactly `width` digits, leading zeros added (`%0<width>d`). */
  function Pad(n: nat, width: nat): (s: string)
    requires n < Pow10(width)
    ensures |s| == width && AllDigits(s)
    ensures Value(s) == n
  {
    if width == 0 then ""
    else
      var p := Pow10(width - 1);
      DivModDigits(n, p);
      Prepend(n / p, Pad(n % p, width - 1), p)
  }

  lemma DivModDigits(n: nat, p: nat)
    requires p >= 1 && n < 10 * p
    ensures n / p < 10 && n % p < p && n == (n / p) * p + n % p
  {
  }

  /** The value of a digit string is its leading digit's place value plus the value of the rest. */
  lemma ValueCons(c: char, t: string)
    requires IsDigit(c) && AllDigits(t)
    ensures AllDigits([c] + t)
    ensures Value([c] + t) == DigitValue(c) * Pow10(|t|) + Value(t)
  {
    assert ([c] + t)[1..] == t;
  }

  /** A digit placed in front of a digit string adds its place value. */
  function Prepend(d: nat, t: string, p: nat): (s: string)
    requires d < 10 && AllDigits(t) && p == Pow10(|t|)
    ensures |s| == |t| + 1 && AllDigits(s)
    ensures Value(s) == d * p + Value(t)
  {
    ValueCons(DigitChar(d), t);
    [DigitChar(d)] + t
  }

  lemma MulAtLeast(a: int, k: int)
    requires a >= 1 && k >= 1
    ensures a * k >= k
  {
    var b: nat := a - 1;
    assert a * k == k + b * k;
  }

  /** Euclidean division has one quotient and remainder. */
  lemma DivModUnique(n: int, k: int, q: int, r: int)
    requires k > 0 && 0 <= r < k && n == q * k + r
    ensures n / k == q && n % k == r
  {
    var dq := q - n / k;
    assert n == (n / k) * k + n % k;
    assert dq * k == n % k - r;
    if dq >= 1 {
      MulAtLeast(dq, k);
    } else if dq <= -1 {
      MulAtLeast(-dq, k);
    }
  }

  /** The number of decimal digits Python prints for `n`. */
  function Width(n: nat): (w: nat)
    ensures w >= 1 && n < Pow10(w)
    ensures n >= 10 ==> Pow10(w - 1) <= n
  {
    if n < 10 then 1 else Width(n / 10) + 1
  }

  /** Python's `str(n)` for a non-negative integer. */
  function NatToString(n: nat): (s: string)
    ensures |s| >= 1 && AllDigits(s) && Value(s) == n
    ensures |s| > 1 ==> s[0] != '0'
  {
    var s := Pad(n, Width(n));
    if |s| > 1 then
      assert s[0] != '0' by {
        if s[0] == '0' {
          ValueLeadingZero(s);
          assert false;
        }
      }
      s
    else s
  }

  lemma {:induction false} ValueLeadingZero(s: string)
    requires AllDigits(s) && |s| >= 1 && s[0] == '0'
    ensures Value(s) == Value(s[1..]) && Value(s) < Pow10(|s| - 1)
  {
  }

  /** Python's `str(i)`. */
  function IntToString(i: int): (s: string)
    ensures |s| >= 1
    ensures i >= 0 <==> s[0] != '-'
  {
    if i < 0 then "-" + NatToString(-i) else NatToString(i)
  }

  /**
    The integer an SQLite TEXT value converts to under INTEGER affinity, when
    it is written as an optional sign followed by decimal digits.
  */
  function ParseInteger(s: string): (r: Option<int>)
    ensures r.Some? ==> |s| >= 1
  {
    if |s| >= 2 && (s[0] == '-' || s[0] == '+') && AllDigits(s[1..]) then
      var magnitude: int := Value(s[1..]);
      Some(if s[0] == '-' then -magnitude else magnitude)
    else if |s| >= 1 && AllDigits(s) then Some(Value(s))
    else None
  }

  /** Reading back what `str(i)` wrote gives `i`. */
  lemma IntToStringRoundTrip(i: int)
    ensures ParseInteger(IntToString(i)) == Some(i)
  {
    if i < 0 {
      assert IntToString(i)[1..] == NatToString(-i);
    }
  }

  // ---------------------------------------------------------------------
  // BINARY collation
  // ---------------------------------------------------------------------

  /** `a` sorts strictly before `b`: first differing code point, else the shorter first. */
  predicate LexLess(a: string, b: string) {
    if |b| == 0 then false
    else if |a| == 0 then true
    else a[0] < b[0] || (a[0] == b[0] && LexLess(a[1..], b[1..]))
  }

  predicate LexLe(a: string, b: string) {
    a == b || LexLess(a, b)
  }

  lemma {:induction false} LexLessIrreflexive(a: string)
    ensures !LexLess(a, a)
  {
    if |a| > 0 {
      LexLessIrreflexive(a[1..]);
    }
  }

  lemma {:induction false} LexLessAsymmetric(a: string, b: string)
    ensures LexLess(a, b) ==> !LexLess(b, a)
  {
    if |a| > 0 && |b| > 0 && a[0] == b[0] {
      LexLessAsymmetric(a[1..], b[1..]);
    }
  }

  lemma {:induction false} LexLessTransitive(a: string, b: string, c: string)
    ensures LexLess(a, b) && LexLess(b, c) ==> LexLess(a, c)
  {
    if |a| > 0 && |b| > 0 && |c| > 0 {
      LexLessTransitive(a[1..], b[1..], c[1..]);
    }
  }

  lemma {:induction false} LexLessTotal(a: string, b: string)
    ensures a == b || LexLess(a, b) || LexLess(b, a)
  {
    if |a| > 0 && |b| > 0 && a[0] == b[0] {
      LexLessTotal(a[1..], b[1..]);
      if a[1..] == b[1..] {
        assert a == [a[0]] + a[1..] && b == [b[0]] + b[1..];
      }
    }
  }

  /** The BINARY collation is a total order on strings. */
  lemma LexLeTotalOrder()
    ensures TotalOrder(LexLe)
  {
    forall a: string, b: string
      ensures LexLe(a, b) || LexLe(b, a)
    {
      LexLessTotal(a, b);
    }
    forall a: string, b: string, c: string | LexLe(a, b) && LexLe(b, c)
      ensures LexLe(a, c)
    {
      LexLessTransitive(a, b, c);
    }
    forall a: string, b: string | LexLe(a, b) && LexLe(b, a)
      ensures a == b
    {
      LexLessAsymmetric(a, b);
    }
  }

  /** SQL `x BETWEEN lo AND hi` on TEXT values: both bounds inclusive, collation order. */
  predicate Between(x: string, lo: string, hi: string) {
    LexLe(lo, x) && LexLe(x, hi)
  }

  /** A range whose upper bound sorts before its lower bound contains nothing. */
  lemma InvertedRangeIsEmpty(x: string, lo: string, hi: string)
    requires LexLess(hi, lo)
    ensures !Between(x, lo, hi)
  {
    if Between(x, lo, hi) {
      LexLessTransitive(hi, lo, x);
      LexLessTransitive(lo, x, hi);
      LexLessAsymmetric(hi, lo);
      LexLessIrreflexive(hi);
    }
  }

  /** Two strings that agree on a common-length head compare as their tails do. */
  lemma {:induction false} LexLessCommonHead(h: string, a: string, b: string)
    ensures LexLess(h + a, h + b) <==> LexLess(a, b)
  {
    if |h| > 0 {
      assert (h + a)[0] == h[0] == (h + b)[0];
      assert (h + a)[1..] == h[1..] + a;
      assert (h + b)[1..] == h[1..] + b;
      LexLessCommonHead(h[1..], a, b);
    } else {
      assert h + a == a && h + b == b;
    }
  }

  /** Heads of equal length that differ decide the comparison alone. */
  lemma {:induction false} LexLessDifferentHeads(h1: string, h2: string, a: string, b: string)
    requires |h1| == |h2| && h1 != h2
    ensures LexLess(h1 + a, h2 + b) <==> LexLess(h1, h2)
  {
    assert |h1| > 0;
    assert (h1 + a)[1..] == h1[1..] + a;
    assert (h2 + b)[1..] == h2[1..] + b;
    if h1[0] == h2[0] {
      assert h1[1..] != h2[1..];
      LexLessDifferentHeads(h1[1..], h2[1..], a, b);
    }
  }

  /** For digit strings of one width, the collation agrees with numeric order. */
  lemma {:induction false} LexLessDigitsIsNumeric(a: string, b: string)
    requires |a| == |b| && AllDigits(a) && AllDigits(b)
    ensures LexLess(a, b) <==> Value(a) < Value(b)
  {
    if |a| > 0 {
      var p := Pow10(|a| - 1);
      var da, db := DigitValue(a[0]), DigitValue(b[0]);
      var ra, rb := Value(a[1..]), Value(b[1..]);
      assert a == [a[0]] + a[1..] && b == [b[0]] + b[1..];
      ValueCons(a[0], a[1..]);
      ValueCons(b[0], b[1..]);
      if da < db {
        LeadingDigitDecides(da, db, p, ra, rb);
      } else if db < da {
        LeadingDigitDecides(db, da, p, rb, ra);
      } else {
        LexLessDigitsIsNumeric(a[1..], b[1..]);
      }
    }
  }

  lemma LeadingDigitDecides(d1: nat, d2: nat, p: nat, r1: nat, r2: nat)
    requires d1 < d2 && r1 < p
    ensures d1 * p + r1 < d2 * p + r2
  {
    var k: nat := d2 - d1 - 1;
    calc {
      d2 * p;
      (d1 + 1 + k) * p;
      d1 * p + p + k * p;
    }
  }

  // ---------------------------------------------------------------------
  // Python string operations
  // ---------------------------------------------------------------------

  predicate StartsWith(s: string, prefix: string) {
    |prefix| <= |s| && s[..|prefix|] == prefix
  }

  /** Python's `needle in s`. */
  predicate Contains(s: string, needle: string) {
    exists i :: 0 <= i <= |s| - |needle| && OccursAt(s, needle, i)
  }

  predicate OccursAt(s: string, needle: string, i: int) {
    0 <= i <= |s| - |needle| && s[i..i + |needle|] == needle
  }

  /**
    The characters Python's `str.strip()` removes: those `str.isspace()`
    holds for, namely the Unicode space separators and the characters of
    bidirectional class WS, B or S.
  */
  predicate IsSpace(c: char) {
    || '\U{09}' <= c <= '\U{0D}'
    || '\U{1C}' <= c <= '\U{20}'
    || c == '\U{85}' || c == '\U{A0}' || c == '\U{1680}'
    || '\U{2000}' <= c <= '\U{200A}'
    || c == '\U{2028}' || c == '\U{2029}' || c == '\U{202F}' || c == '\U{205F}'
    || c == '\U{3000}'
  }

  function StripLeft(s: string): (r: string)
    ensures |r| <= |s| && r == s[|s| - |r|..]
    ensures |r| > 0 ==> !IsSpace(r[0])
  {
    if |s| > 0 && IsSpace(s[0]) then StripLeft(s[1..]) else s
  }

  function StripRight(s: string): (r: string)
    ensures |r| <= |s| && r == s[..|r|]
    ensures |r| > 0 ==> !IsSpace(r[|r| - 1])
  {
    if |s| > 0 && IsSpace(s[|s| - 1]) then StripRight(s[..|s| - 1]) else s
  }

  /** Everything `lstrip()` removes is whitespace. */
  lemma {:induction false} StripLeftRemovesSpace(s: string)
    ensures forall i :: 0 <= i < |s| - |StripLeft(s)| ==> IsSpace(s[i])
  {
    if |s| > 0 && IsSpace(s[0]) {
      StripLeftRemovesSpace(s[1..]);
      assert forall i :: 1 <= i < |s| - |StripLeft(s)| ==> s[i] == s[1..][i - 1];
    }
  }

  /** Everything `rstrip()` removes is whitespace. */
  lemma {:induction false} StripRightRemovesSpace(s: string)
    ensures forall i :: |StripRight(s)| <= i < |s| ==> IsSpace(s[i])
  {
    if |s| > 0 && IsSpace(s[|s| - 1]) {
      StripRightRemovesSpace(s[..|s| - 1]);
      assert forall i :: |StripRight(s)| <= i < |s| - 1 ==> s[i] == s[..|s| - 1][i];
    }
  }

  /** Python's `s.strip()`. */
  function Strip(s: string): (r: string)
    ensures |r| > 0 ==> !IsSpace(r[0]) && !IsSpace(r[|r| - 1])
  {
    StripRight(StripLeft(s))
  }

  /** The text before the first occurrence of `sep`, or all of `s` when there is none. */
  function UpTo(s: string, sep: char): (r: string)
    ensures |r| <= |s| && r == s[..|r|]
    ensures sep !in r
    ensures |r| < |s| ==> s[|r|] == sep
  {
    if |s| == 0 || s[0] == sep then "" else [s[0]] + UpTo(s[1..], sep)
  }

  /** A field that holds no separator is recovered whole from the text it starts. */
  lemma {:induction false} UpToField(a: string, sep: char, b: string)
    requires sep !in a
    ensures UpTo(a + [sep] + b, sep) == a
  {
    if |a| > 0 {
      assert (a + [sep] + b)[1..] == a[1..] + [sep] + b;
      UpToField(a[1..], sep, b);
    }
  }

  /** Text without the separator is one field. */
  lemma UpToWhole(s: string, sep: char)
    requires sep !in s
    ensures UpTo(s, sep) == s
  {
  }

  /** `str.strip()` leaves text that neither starts nor ends with whitespace as it is. */
  lemma StripUnpadded(s: string)
    requires |s| > 0 ==> !IsSpace(s[0]) && !IsSpace(s[|s| - 1])
    ensures Strip(s) == s
  {
  }

  /** `str(i)` is written with digits and a leading minus sign only. */
  lemma IntToStringCharacters(i: int)
    ensures forall c :: c in IntToString(i) ==> IsDigit(c) || c == '-'
  {
  }

  /**
    Python's `s.split(sep)[1]` for a string known to contain `sep`: the field
    between the first and the second separator.
  */
  function SecondField(s: string, sep: char): (r: string)
    requires sep in s
    ensures sep !in r
  {
    var first := UpTo(s, sep);
    assert |first| < |s|;
    UpTo(s[|first| + 1..], sep)
  }
}
