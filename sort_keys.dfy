/**
 * Sort keys are strings: the store compares them character by character, and the
 * record builders render a millisecond timestamp as its decimal digits.  This module
 * defines both and proves that, for renderings of equal width, string order and
 * numeric order agree.
 */
module SortKeys {
  import opened Common

  // ---------------------------------------------------------------------------
  // Lexicographic order on strings
  // ---------------------------------------------------------------------------

  /** Strict lexicographic order, as the store compares string sort keys.  On Unicode
      scalar values this is also the order of their UTF-8 byte encodings. */
  predicate LexLess(a: string, b: string)
    decreases |a|
  {
    if a == [] then b != []
    else b != [] && (a[0] < b[0] || (a[0] == b[0] && LexLess(a[1..], b[1..])))
  }

  predicate LexLe(a: string, b: string)
  {
    a == b || LexLess(a, b)
  }

  lemma {:induction false} LexLessIrreflexive(a: string)
    ensures !LexLess(a, a)
    decreases |a|
  {
    if a != [] {
      LexLessIrreflexive(a[1..]);
    }
  }

  lemma {:induction false} LexLessAsymmetric(a: string, b: string)
    requires LexLess(a, b)
    ensures !LexLess(b, a)
    decreases |a|
  {
    if a != [] && b != [] && a[0] == b[0] {
      LexLessAsymmetric(a[1..], b[1..]);
    }
  }

  lemma {:induction false} LexLessTotal(a: string, b: string)
    requires a != b
    ensures LexLess(a, b) || LexLess(b, a)
    decreases |a|
  {
    if a != [] && b != [] && a[0] == b[0] {
      LexLessTotal(a[1..], b[1..]);
    }
  }

  /** `a <= b < a` is impossible: a key at or before a cursor is never strictly after it. */
  lemma LexLeNotAfter(a: string, c: string)
    requires LexLe(a, c)
    ensures !LexLess(c, a)
  {
    if a == c {
      LexLessIrreflexive(a);
    } else {
      LexLessAsymmetric(a, c);
    }
  }

  /** Comparing two strings of equal length extended by one character each. */
  lemma {:induction false} LexLessAppend(s: string, t: string, c: char, e: char)
    requires |s| == |t|
    ensures LexLess(s + [c], t + [e]) <==> LexLess(s, t) || (s == t && c < e)
    decreases |s|
  {
    if s != [] {
      assert (s + [c])[0] == s[0] && (s + [c])[1..] == s[1..] + [c];
      assert (t + [e])[0] == t[0] && (t + [e])[1..] == t[1..] + [e];
      LexLessAppend(s[1..], t[1..], c, e);
      assert s == t <==> s[0] == t[0] && s[1..] == t[1..] by {
        assert s == [s[0]] + s[1..] && t == [t[0]] + t[1..];
      }
    }
  }

  // ---------------------------------------------------------------------------
  // Decimal rendering of a timestamp (Java's String.valueOf(long) for n >= 0)
  // ---------------------------------------------------------------------------

  predicate IsDigit(c: char) { '0' <= c <= '9' }

  predicate AllDigits(s: string) { forall i :: 0 <= i < |s| ==> IsDigit(s[i]) }

  /** A canonical decimal numeral: at least one digit and no leading zero. */
  predicate Canonical(s: string)
  {
    |s| >= 1 && AllDigits(s) && (|s| > 1 ==> s[0] != '0')
  }

  function DigitChar(d: nat): (c: char)
    requires d < 10
    ensures IsDigit(c)
  {
    ('0' as int + d) as char
  }

  function DigitValue(c: char): (d: nat)
    requires IsDigit(c)
    ensures d < 10 && DigitChar(d) == c
  {
    c as int - '0' as int
  }

  /** The decimal rendering of a natural number. */
  function DecimalOf(n: nat): (s: string)
    ensures Canonical(s)
    ensures n < 10 <==> |s| == 1
  {
    if n < 10 then [DigitChar(n)] else DecimalOf(n / 10) + [DigitChar(n % 10)]
  }

  /** The number a string of digits denotes. */
  function DigitsValue(s: string): nat
    requires AllDigits(s)
    decreases |s|
  {
    if s == [] then 0 else DigitsValue(s[..|s| - 1]) * 10 + DigitValue(s[|s| - 1])
  }

  /** Reads a canonical decimal numeral back; anything else is refused. */
  function ParseDecimal(s: string): Option<nat>
  {
    if Canonical(s) then Some(DigitsValue(s)) else None
  }

  lemma {:induction false} DigitsValueOfDecimal(n: nat)
    ensures DigitsValue(DecimalOf(n)) == n
  {
    if n >= 10 {
      var s := DecimalOf(n);
      assert s[..|s| - 1] == DecimalOf(n / 10);
      DigitsValueOfDecimal(n / 10);
    }
  }

  /** The rendering parses back to the number it renders. */
  lemma DecimalRoundTrip(n: nat)
    ensures ParseDecimal(DecimalOf(n)) == Some(n)
  {
    DigitsValueOfDecimal(n);
  }

  lemma {:induction false} LeadingDigitPositive(s: string)
    requires Canonical(s) && s[0] != '0'
    ensures DigitsValue(s) >= 1
    decreases |s|
  {
    if |s| > 1 {
      var p := s[..|s| - 1];
      assert p[0] == s[0];
      LeadingDigitPositive(p);
    }
  }

  /** Every canonical numeral is the rendering of the number it denotes. */
  lemma {:induction false} DecimalOfParsed(s: string)
    requires Canonical(s)
    ensures DecimalOf(DigitsValue(s)) == s
    decreases |s|
  {
    if |s| > 1 {
      var p := s[..|s| - 1];
      assert p[0] == s[0];
      LeadingDigitPositive(p);
      DecimalOfParsed(p);
      var n := DigitsValue(s);
      assert n / 10 == DigitsValue(p) && n % 10 == DigitValue(s[|s| - 1]);
      assert s == p + [s[|s| - 1]];
    }
  }

  /** ParseDecimal and DecimalOf are inverse bijections between naturals and canonical numerals. */
  lemma ParseDecimalInverse(s: string, n: nat)
    ensures ParseDecimal(s) == Some(n) <==> DecimalOf(n) == s
  {
    if ParseDecimal(s) == Some(n) {
      DecimalOfParsed(s);
    }
    if DecimalOf(n) == s {
      DecimalRoundTrip(n);
    }
  }

  /** Distinct numbers have distinct renderings. */
  lemma DecimalInjective(a: nat, b: nat)
    requires DecimalOf(a) == DecimalOf(b)
    ensures a == b
  {
    DigitsValueOfDecimal(a);
    DigitsValueOfDecimal(b);
  }

  /** For digit strings of equal length, string order is numeric order. */
  lemma {:induction false} DigitsOrder(s: string, t: string)
    requires AllDigits(s) && AllDigits(t) && |s| == |t|
    ensures LexLess(s, t) <==> DigitsValue(s) < DigitsValue(t)
    ensures s == t <==> DigitsValue(s) == DigitsValue(t)
    decreases |s|
  {
    if s != [] {
      var p, q := s[..|s| - 1], t[..|t| - 1];
      var c, e := s[|s| - 1], t[|t| - 1];
      assert s == p + [c] && t == q + [e];
      DigitsOrder(p, q);
      LexLessAppend(p, q, c, e);
      var dc, de := DigitValue(c), DigitValue(e);
      assert DigitsValue(s) == DigitsValue(p) * 10 + dc;
      assert DigitsValue(t) == DigitsValue(q) * 10 + de;
      assert c < e <==> dc < de;
      assert c == e <==> dc == de;
    }
  }

  /** Sort-key range queries compare strings: for renderings of equal width this is the
      numeric order of the timestamps. */
  lemma DecimalOrder(a: nat, b: nat)
    requires |DecimalOf(a)| == |DecimalOf(b)|
    ensures LexLess(DecimalOf(a), DecimalOf(b)) <==> a < b
  {
    DigitsValueOfDecimal(a);
    DigitsValueOfDecimal(b);
    DigitsOrder(DecimalOf(a), DecimalOf(b));
  }
}
