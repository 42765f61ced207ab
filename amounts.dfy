/**
 * Monetary amounts and the leading-digit rule of the forensic annotation.
 *
 * An amount is an exact decimal `units / 10^scale`. The annotation reads the
 * magnitude's printed decimal numeral, drops the decimal point, strips the
 * leading zeros and takes the first remaining character; a zero magnitude gets
 * the digit class 0.
 */
module Amounts {

  /** The exact decimal `units / 10^scale`. */
  datatype Decimal = Decimal(units: int, scale: nat)

  function Pow10(k: nat): (p: nat)
    ensures p >= 1
  {
    if k == 0 then 1 else 10 * Pow10(k - 1)
  }

  function Abs(x: int): nat
  {
    if x < 0 then -x else x
  }

  /** The amount as a number, for sums of capital. */
  function Value(x: Decimal): real
  {
    x.units as real / Pow10(x.scale) as real
  }

  predicate IsDigit(c: char)
  {
    '0' <= c <= '9'
  }

  predicate AllDigits(s: seq<char>)
  {
    forall i :: 0 <= i < |s| ==> IsDigit(s[i])
  }

  function DigitChar(d: nat): (c: char)
    requires d < 10
    ensures IsDigit(c)
    ensures (c == '0') == (d == 0)
  {
    (d + '0' as int) as char
  }

  function DigitValue(c: char): (d: nat)
    requires IsDigit(c)
    ensures d < 10 && DigitChar(d) == c
  {
    c as int - '0' as int
  }

  /** The most significant decimal digit of `n` (0 only for 0 itself). */
  function MostSignificant(n: nat): (d: nat)
    ensures d < 10
    ensures (d == 0) == (n == 0)
    decreases n
  {
    if n < 10 then n else MostSignificant(n / 10)
  }

  /** `str(n)` for a non-negative integer: its decimal digits, most significant first. */
  function DigitsOf(n: nat): (s: seq<char>)
    ensures |s| >= 1 && AllDigits(s)
    ensures s[0] == DigitChar(MostSignificant(n))
    decreases n
  {
    if n < 10 then [DigitChar(n)] else DigitsOf(n / 10) + [DigitChar(n % 10)]
  }

  /** The number a string of decimal digits denotes. */
  function NumeralValue(s: seq<char>): nat
    requires AllDigits(s)
  {
    if s == [] then 0 else 10 * NumeralValue(s[..|s| - 1]) + DigitValue(s[|s| - 1])
  }

  /** The digits of `n` denote `n`. */
  lemma {:induction false} DigitsOfRoundTrip(n: nat)
    ensures NumeralValue(DigitsOf(n)) == n
    decreases n
  {
    if n >= 10 {
      var t := DigitsOf(n);
      assert t[..|t| - 1] == DigitsOf(n / 10);
      DigitsOfRoundTrip(n / 10);
    }
  }

  /** The most significant digit is the leading digit in the arithmetic sense:
      `d * 10^k <= n < (d + 1) * 10^k`, with `k + 1` the number of digits of `n`. */
  lemma {:induction false} MostSignificantBounds(n: nat)
    requires n > 0
    ensures var k := |DigitsOf(n)| - 1;
      Pow10(k) * MostSignificant(n) <= n < Pow10(k) * (MostSignificant(n) + 1)
    decreases n
  {
    if n >= 10 {
      var m := n / 10;
      MostSignificantBounds(m);
      ShiftBounds(Pow10(|DigitsOf(m)| - 1), MostSignificant(m), m, n);
    }
  }

  lemma ShiftBounds(p: nat, d: nat, m: nat, n: nat)
    requires p * d <= m < p * (d + 1)
    requires 10 * m <= n < 10 * m + 10
    ensures (10 * p) * d <= n < (10 * p) * (d + 1)
  {
    assert (10 * p) * d == 10 * (p * d);
    assert (10 * p) * (d + 1) == 10 * (p * (d + 1));
  }

  function Zeros(k: nat): (z: seq<char>)
    ensures |z| == k && forall i :: 0 <= i < k ==> z[i] == '0'
  {
    seq(k, _ => '0')
  }

  /**
   * `str(abs(x))`: the magnitude's digits, left-padded with zeros so that one
   * digit stands before the point, with the point `scale` digits from the right;
   * a whole amount prints as `ddd.0`.
   */
  function Render(x: Decimal): seq<char>
  {
    var s := DigitsOf(Abs(x.units));
    if x.scale == 0 then s + ".0"
    else
      var p := if |s| <= x.scale then Zeros(x.scale + 1 - |s|) + s else s;
      p[..|p| - x.scale] + "." + p[|p| - x.scale..]
  }

  /** `s.replace('.', '')`. */
  function RemovePoint(s: seq<char>): (r: seq<char>)
    ensures |r| <= |s|
    ensures forall i :: 0 <= i < |r| ==> r[i] != '.'
  {
    if s == [] then [] else (if s[0] == '.' then [] else [s[0]]) + RemovePoint(s[1..])
  }

  /** `s.lstrip('0')`: the suffix of `s` left after its leading zeros. */
  function StripZeros(s: seq<char>): (r: seq<char>)
    ensures r == [] || r[0] != '0'
    ensures |r| <= |s| && r == s[|s| - |r|..]
    ensures forall i :: 0 <= i < |s| - |r| ==> s[i] == '0'
  {
    if s != [] && s[0] == '0' then StripZeros(s[1..]) else s
  }

  lemma {:induction false} RemovePointAppend(a: seq<char>, b: seq<char>)
    ensures RemovePoint(a + b) == RemovePoint(a) + RemovePoint(b)
  {
    if a == [] {
      assert a + b == b;
    } else {
      assert (a + b)[1..] == a[1..] + b;
      RemovePointAppend(a[1..], b);
    }
  }

  lemma {:induction false} RemovePointDigits(s: seq<char>)
    requires AllDigits(s)
    ensures RemovePoint(s) == s
  {
    if s != [] {
      RemovePointDigits(s[1..]);
    }
  }

  lemma {:induction false} StripZerosPadding(k: nat, s: seq<char>)
    requires s != [] && s[0] != '0'
    ensures StripZeros(Zeros(k) + s) == s
  {
    if k == 0 {
      assert Zeros(k) + s == s;
    } else {
      assert (Zeros(k) + s)[1..] == Zeros(k - 1) + s;
      StripZerosPadding(k - 1, s);
    }
  }

  /** Once the point and the leading zeros are gone, the printed numeral of a
      non-zero amount starts with the digits of `|units|`. */
  lemma RenderedDigits(x: Decimal)
    requires x.units != 0
    ensures DigitsOf(Abs(x.units)) <= StripZeros(RemovePoint(Render(x)))
  {
    var s := DigitsOf(Abs(x.units));
    if x.scale == 0 {
      assert Render(x) == s + ".0";
      WholeDigits(s);
    } else {
      var p := if |s| <= x.scale then Zeros(x.scale + 1 - |s|) + s else s;
      var k := |p| - x.scale;
      assert Render(x) == p[..k] + "." + p[k..];
      PointedDigits(p, k);
      if |s| <= x.scale {
        StripZerosPadding(x.scale + 1 - |s|, s);
      }
    }
  }

  lemma WholeDigits(s: seq<char>)
    requires AllDigits(s) && s != [] && s[0] != '0'
    ensures s <= StripZeros(RemovePoint(s + ".0"))
  {
    RemovePointAppend(s, ".0");
    RemovePointDigits(s);
    assert RemovePoint(".0") == "0";
    assert (s + "0")[0] != '0';
  }

  lemma PointedDigits(p: seq<char>, k: nat)
    requires AllDigits(p) && k <= |p|
    ensures RemovePoint(p[..k] + "." + p[k..]) == p
  {
    var a, q := p[..k], p[k..];
    assert AllDigits(a) && AllDigits(q);
    RemovePointBetween(a, q);
    assert a + q == p;
  }

  lemma RemovePointBetween(a: seq<char>, q: seq<char>)
    requires AllDigits(a) && AllDigits(q)
    ensures RemovePoint(a + "." + q) == a + q
  {
    var dq := "." + q;
    calc {
      RemovePoint(a + "." + q);
      { assert a + "." + q == a + dq; }
      RemovePoint(a + dq);
      { RemovePointAppend(a, dq); }
      RemovePoint(a) + RemovePoint(dq);
      { DropPoint(q); RemovePointDigits(q); }
      RemovePoint(a) + q;
      { RemovePointDigits(a); }
      a + q;
    }
  }

  lemma DropPoint(q: seq<char>)
    ensures RemovePoint("." + q) == RemovePoint(q)
  {
    assert ("." + q)[1..] == q;
  }

  /** The leading-digit class of an amount: 0 for a zero magnitude, otherwise
      the first non-zero character of the magnitude's digit string. */
  function LeadingDigit(x: Decimal): (d: nat)
    ensures d <= 9
    ensures (d == 0) == (x.units == 0)
  {
    if Abs(x.units) > 0 then
      RenderedDigits(x);
      var t := StripZeros(RemovePoint(Render(x)));
      assert t[0] == DigitsOf(Abs(x.units))[0];
      DigitValue(t[0])
    else
      0
  }

  /** The leading digit is the most significant digit of `|units|`. */
  lemma LeadingDigitIsMostSignificant(x: Decimal)
    ensures LeadingDigit(x) == if x.units == 0 then 0 else MostSignificant(Abs(x.units))
  {
    if x.units != 0 {
      RenderedDigits(x);
      var t := StripZeros(RemovePoint(Render(x)));
      assert t[0] == DigitChar(MostSignificant(Abs(x.units)));
    }
  }

  /** Neither the sign nor the position of the point changes the leading digit. */
  lemma LeadingDigitIgnoresSignAndScale(u: int, s1: nat, s2: nat)
    ensures LeadingDigit(Decimal(u, s1)) == LeadingDigit(Decimal(-u, s2))
  {
    LeadingDigitIsMostSignificant(Decimal(u, s1));
    LeadingDigitIsMostSignificant(Decimal(-u, s2));
  }

  /** The digit classes of amounts with 0, -987, 1234 and 56 units, wherever the
      point stands: for instance 0.0, -987.0, 12.34 and 0.056. */
  lemma LeadingDigitExamples(x: Decimal)
    ensures x.units == 0 ==> LeadingDigit(x) == 0
    ensures x.units == -987 ==> LeadingDigit(x) == 9
    ensures x.units == 1234 ==> LeadingDigit(x) == 1
    ensures x.units == 56 ==> LeadingDigit(x) == 5
  {
    LeadingDigitIsMostSignificant(x);
    MostSignificantExamples();
  }

  lemma MostSignificantExamples()
    ensures MostSignificant(987) == 9 && MostSignificant(1234) == 1 && MostSignificant(56) == 5
  {
  }
}
