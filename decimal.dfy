/**
 * Exact decimal numbers for the amounts the extractor reads: Python's
 * `float()` on a plain decimal literal, `str()` on a natural number, and
 * `round(x, 2)`, all on exact rationals instead of binary floating point.
 */
module Decimal {
  import opened Results
  import opened Text

  predicate AllDigits(s: string) {
    forall i :: 0 <= i < |s| ==> IsAsciiDigit(s[i])
  }

  function DigitValue(c: char): (d: nat)
    requires IsAsciiDigit(c)
    ensures d < 10
  {
    c as int - '0' as int
  }

  function DigitChar(d: nat): (c: char)
    requires d < 10
    ensures IsAsciiDigit(c) && DigitValue(c) == d
  {
    ('0' as int + d) as char
  }

  function Pow10(n: nat): (r: nat)
    ensures r >= 1
  {
    if n == 0 then 1 else 10 * Pow10(n - 1)
  }

  /** The natural number a string of decimal digits denotes ("" denotes 0). */
  function DigitsValue(s: string): nat
    requires AllDigits(s)
  {
    if s == [] then 0 else 10 * DigitsValue(s[..|s| - 1]) + DigitValue(s[|s| - 1])
  }

  lemma {:induction false} DigitsValueAppend(a: string, b: string)
    requires AllDigits(a) && AllDigits(b)
    ensures AllDigits(a + b)
    ensures DigitsValue(a + b) == DigitsValue(a) * Pow10(|b|) + DigitsValue(b)
    decreases |b|
  {
    if b == [] {
      assert a + b == a;
    } else {
      var b' := b[..|b| - 1];
      var c := b[|b| - 1];
      assert (a + b)[..|a + b| - 1] == a + b';
      assert (a + b)[|a + b| - 1] == c;
      DigitsValueAppend(a, b');
      assert DigitsValue(a + b) == 10 * DigitsValue(a + b') + DigitValue(c);
      assert DigitsValue(b) == 10 * DigitsValue(b') + DigitValue(c);
      ShiftDigit(DigitsValue(a), Pow10(|b'|), DigitsValue(b'), DigitValue(c));
    }
  }

  lemma {:induction false} ShiftDigit(x: nat, p: nat, y: nat, c: nat)
    ensures 10 * (x * p + y) + c == x * (10 * p) + (10 * y + c)
  {
  }

  /** Python's `str(n)` for a natural number: its decimal digits, without leading zeros. */
  function NatToDigits(n: nat): (r: string)
    ensures |r| >= 1 && AllDigits(r)
    ensures |r| > 1 ==> r[0] != '0'
  {
    if n < 10 then [DigitChar(n)] else NatToDigits(n / 10) + [DigitChar(n % 10)]
  }

  /** Reading back the digits of `str(n)` gives `n`. */
  lemma {:induction false} NatToDigitsRoundTrip(n: nat)
    ensures DigitsValue(NatToDigits(n)) == n
  {
    if n >= 10 {
      var s := NatToDigits(n);
      assert s[..|s| - 1] == NatToDigits(n / 10);
      NatToDigitsRoundTrip(n / 10);
    }
  }

  /** Distinct numbers have distinct decimal representations. */
  lemma {:induction false} NatToDigitsInjective(m: nat, n: nat)
    requires NatToDigits(m) == NatToDigits(n)
    ensures m == n
  {
    NatToDigitsRoundTrip(m);
    NatToDigitsRoundTrip(n);
  }

  /** Three digits, with leading zeros: the group after a thousands separator. */
  function Pad3(n: nat): (r: string)
    requires n < 1000
    ensures |r| == 3 && AllDigits(r) && DigitsValue(r) == n
  {
    var r := [DigitChar(n / 100), DigitChar(n / 10 % 10), DigitChar(n % 10)];
    Pad3Value(n, r);
    r
  }

  lemma {:induction false} Pad3Value(n: nat, r: string)
    requires n < 1000 && r == [DigitChar(n / 100), DigitChar(n / 10 % 10), DigitChar(n % 10)]
    ensures AllDigits(r) && DigitsValue(r) == n
  {
    var a, b, c := n / 100, n / 10 % 10, n % 10;
    assert r[..2][..1] == [r[0]] && [r[0]][..0] == [];
    assert DigitsValue([r[0]]) == a;
    assert DigitsValue(r[..2]) == 10 * a + b;
    assert DigitsValue(r) == 10 * (10 * a + b) + c;
    ThreePlaces(n);
  }

  /** A number below 1000 is its hundreds, tens and units recombined. */
  lemma {:induction false} ThreePlaces(n: nat)
    requires n < 1000
    ensures 10 * (10 * (n / 100) + n / 10 % 10) + n % 10 == n
  {
  }

  /** A natural number written with thousands separators, as in "12,345". */
  function GroupThousands(n: nat): (r: string)
    ensures |r| >= 1
  {
    if n < 1000 then NatToDigits(n) else GroupThousands(n / 1000) + "," + Pad3(n % 1000)
  }

  /** Dropping the separators of the grouped form leaves digits denoting the number. */
  lemma {:induction false} GroupThousandsDigits(n: nat)
    ensures AllDigits(RemoveChar(GroupThousands(n), ','))
    ensures RemoveChar(GroupThousands(n), ',') != []
    ensures DigitsValue(RemoveChar(GroupThousands(n), ',')) == n
  {
    if n < 1000 {
      var d := NatToDigits(n);
      assert ',' !in d by {
        assert forall k :: 0 <= k < |d| ==> IsAsciiDigit(d[k]);
      }
      NatToDigitsRoundTrip(n);
    } else {
      var hi := GroupThousands(n / 1000);
      var lo := Pad3(n % 1000);
      GroupThousandsDigits(n / 1000);
      RemoveCharAppend(hi + ",", lo, ',');
      RemoveCharAppend(hi, ",", ',');
      assert RemoveChar(",", ',') == [];
      assert ',' !in lo by {
        assert forall k :: 0 <= k < |lo| ==> IsAsciiDigit(lo[k]);
      }
      var hd := RemoveChar(hi, ',');
      assert RemoveChar(GroupThousands(n), ',') == hd + lo;
      DigitsValueAppend(hd, lo);
      assert Pow10(3) == 1000;
    }
  }

  predicate IsDigitOrDot(c: char) {
    IsAsciiDigit(c) || c == '.'
  }

  /** The value of the digits after a decimal point: "50" is one half. */
  function FractionValue(f: string): (r: real)
    requires AllDigits(f)
    ensures 0.0 <= r < 1.0
  {
    FractionBound(f);
    DigitsValue(f) as real / Pow10(|f|) as real
  }

  lemma {:induction false} DigitsValueBound(f: string)
    requires AllDigits(f)
    ensures DigitsValue(f) < Pow10(|f|)
  {
    if f != [] {
      DigitsValueBound(f[..|f| - 1]);
    }
  }

  lemma {:induction false} FractionBound(f: string)
    requires AllDigits(f)
    ensures 0.0 <= DigitsValue(f) as real / Pow10(|f|) as real < 1.0
  {
    DigitsValueBound(f);
    DivBelowOne(DigitsValue(f) as real, Pow10(|f|) as real);
  }

  lemma {:induction false} DivBelowOne(x: real, y: real)
    requires 0.0 <= x < y
    ensures 0.0 <= x / y < 1.0
  {
  }

  /**
   * A decimal literal: digits, then optionally a point and more digits, with
   * at least one digit in all ("12", "12.", ".5", "12.50").
   */
  function DecimalLiteral(t: string): (r: Option<real>)
    ensures r.Some? ==> r.value >= 0.0
  {
    var n := LeadingRun(t, IsAsciiDigit);
    var whole := t[..n];
    if n == |t| then
      if n == 0 then None else Some(DigitsValue(whole) as real)
    else if t[n] != '.' then None
    else PointedLiteral(whole, t[n + 1..])
  }

  /** The value of `whole`, a point and `frac`, when `frac` is digits and the two are not both empty. */
  function PointedLiteral(whole: string, frac: string): (r: Option<real>)
    requires AllDigits(whole)
    ensures r.Some? ==> r.value >= 0.0
  {
    if !AllDigits(frac) || (whole == [] && frac == []) then None
    else Some(DigitsValue(whole) as real + FractionValue(frac))
  }

  /**
   * Python's `float(s)` on the texts the extractor can hand it: surrounding
   * whitespace is ignored and what remains must be a decimal literal.
   */
  function ParseFloat(s: string): (r: Option<real>)
    ensures r.Some? ==> r.value >= 0.0
  {
    DecimalLiteral(Strip(s))
  }

  /** Digits carry no surrounding whitespace to strip. */
  lemma {:induction false} StripDigits(s: string)
    requires AllDigits(s)
    ensures Strip(s) == s
  {
    if s != [] {
      assert IsAsciiDigit(s[0]) && IsAsciiDigit(s[|s| - 1]);
    }
  }

  /** A non-empty string of digits parses to the whole number it denotes. */
  lemma {:induction false} ParseFloatDigits(s: string)
    requires s != [] && AllDigits(s)
    ensures ParseFloat(s) == Some(DigitsValue(s) as real)
  {
    assert !IsSpace(s[0]) && !IsSpace(s[|s| - 1]);
    assert Strip(s) == s;
    assert LeadingRun(s, IsAsciiDigit) == |s|;
    assert s[..|s|] == s;
  }

  /** A literal whose digit run stops at a point followed by digits only. */
  lemma {:induction false} DecimalLiteralPointed(t: string, n: nat)
    requires n == LeadingRun(t, IsAsciiDigit) && n < |t| && t[n] == '.'
    requires AllDigits(t[n + 1..])
    requires |t| > 1
    ensures DecimalLiteral(t).Some?
    ensures DecimalLiteral(t).value == DigitsValue(t[..n]) as real + FractionValue(t[n + 1..])
  {
    assert DecimalLiteral(t) == PointedLiteral(t[..n], t[n + 1..]);
    assert |t[..n]| + |t[n + 1..]| == |t| - 1;
  }

  /** Digits, a point and digits parse to the whole part plus the fraction. */
  lemma {:induction false} ParseFloatPointed(a: string, b: string)
    requires AllDigits(a) && AllDigits(b) && (a != [] || b != [])
    ensures Strip(a + "." + b) == a + "." + b
    ensures ParseFloat(a + "." + b).Some?
    ensures ParseFloat(a + "." + b).value == DigitsValue(a) as real + FractionValue(b)
  {
    var s := a + "." + b;
    assert !IsSpace(s[0]) && !IsSpace(s[|s| - 1]);
    assert Strip(s) == s;
    var n := LeadingRun(s, IsAsciiDigit);
    assert s[|a|] == '.';
    assert n == |a|;
    assert s[..n] == a;
    assert s[n + 1..] == b;
    DecimalLiteralPointed(s, n);
    assert DigitsValue(s[..n]) == DigitsValue(a);
    assert FractionValue(s[n + 1..]) == FractionValue(b);
  }

  /** A text with two decimal points is rejected, as `float("1.2.3")` is. */
  lemma {:induction false} ParseFloatRejectsTwoPoints(a: string, b: string, c: string)
    requires AllDigits(a) && AllDigits(b) && AllDigits(c)
    ensures ParseFloat(a + "." + b + "." + c) == None
  {
    var s := a + "." + b + "." + c;
    assert !IsSpace(s[0]) && !IsSpace(s[|s| - 1]);
    assert Strip(s) == s;
    var n := LeadingRun(s, IsAsciiDigit);
    assert s[|a|] == '.';
    assert n == |a|;
    assert s[n + 1..][|b|] == '.';
  }

  /** The number is a whole number of hundredths. */
  predicate IsCents(x: real) {
    (x * 100.0).Floor as real == x * 100.0
  }

  /**
   * `r` is `x` rounded to two decimals as `round(x, 2)` rounds an exact value:
   * a whole number of hundredths within half a hundredth of `x`, and at a tie
   * (`x` exactly halfway between two hundredths) the even one.
   */
  predicate RoundsToCents(x: real, r: real) {
    var y := x * 100.0;
    IsCents(r) && -0.005 <= r - x <= 0.005 &&
    (y - y.Floor as real == 0.5 ==> (r * 100.0).Floor % 2 == 0)
  }

  /** At most one value is `x` rounded to two decimals. */
  lemma {:induction false} RoundsToCentsUnique(x: real, r1: real, r2: real)
    requires RoundsToCents(x, r1) && RoundsToCents(x, r2)
    ensures r1 == r2
  {
    var y := x * 100.0;
    var n1 := (r1 * 100.0).Floor;
    var n2 := (r2 * 100.0).Floor;
    assert -0.5 <= n1 as real - y <= 0.5;
    assert -0.5 <= n2 as real - y <= 0.5;
    if n1 != n2 {
      var lo := if n1 < n2 then n1 else n2;
      assert lo as real <= y < lo as real + 1.0 && y - lo as real == 0.5;
      FloorBetween(y, lo);
      assert false;
    }
  }

  lemma {:induction false} FloorBetween(y: real, n: int)
    requires n as real <= y < n as real + 1.0
    ensures y.Floor == n
  {
  }

  /**
   * `round(x, 2)` on an exact value: to the nearest hundredth, a tie going to
   * the even hundredth.
   */
  function Round2(x: real): (r: real)
    ensures RoundsToCents(x, r)
  {
    var y := x * 100.0;
    var f := y.Floor;
    var d := y - f as real;
    var n := if d < 0.5 then f else if d > 0.5 then f + 1 else if f % 2 == 0 then f else f + 1;
    assert -0.5 <= n as real - y <= 0.5;
    HundredthsNear(n, x);
    assert (n as real / 100.0 * 100.0).Floor == n;
    n as real / 100.0
  }

  /** A whole number of hundredths within half a hundredth of `x`, scaled back. */
  lemma {:induction false} HundredthsNear(n: int, x: real)
    requires -0.5 <= n as real - x * 100.0 <= 0.5
    ensures IsCents(n as real / 100.0)
    ensures -0.005 <= n as real / 100.0 - x <= 0.005
  {
    assert (n as real / 100.0) * 100.0 == n as real;
  }

  /** Rounding leaves a whole number of hundredths unchanged. */
  lemma {:induction false} Round2OfCents(x: real)
    requires IsCents(x)
    ensures Round2(x) == x
  {
    var y := x * 100.0;
    assert y.Floor as real == y;
  }

  lemma {:induction false} Round2Idempotent(x: real)
    ensures Round2(Round2(x)) == Round2(x)
  {
    Round2OfCents(Round2(x));
  }

  lemma {:induction false} WholeIsCents(n: int)
    ensures IsCents(n as real)
  {
    assert (n as real * 100.0) == (n * 100) as real;
  }
}
