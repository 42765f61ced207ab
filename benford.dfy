/**
 * The observed leading-digit profile: for each digit 1..9, the share of the
 * rows shown so far in the current pass whose leading digit it is. The share is
 * taken over all of those rows, zero-digit rows included, and a digit that does
 * not occur gets 0.
 */
module Benford {

  /** How often `d` occurs in `s`. */
  function Count(s: seq<nat>, d: nat): (c: nat)
    ensures c <= |s|
    ensures (c == 0) == (forall i :: 0 <= i < |s| ==> s[i] != d)
  {
    if s == [] then 0 else (if s[0] == d then 1 else 0) + Count(s[1..], d)
  }

  /** `Count` is the multiplicity of the digit in the column. */
  lemma {:induction false} CountIsMultiplicity(s: seq<nat>, d: nat)
    ensures Count(s, d) == multiset(s)[d]
  {
    if s != [] {
      CountIsMultiplicity(s[1..], d);
      assert s == [s[0]] + s[1..];
    }
  }

  /** The observed frequencies of the digits 1..9 among `digits[0..step]`. */
  function Observed(digits: seq<nat>, step: nat): (obs: map<nat, real>)
    requires step < |digits|
    ensures forall d: nat :: d in obs <==> 1 <= d <= 9
    ensures forall d :: d in obs ==> 0.0 <= obs[d] <= 1.0
  {
    var prefix := digits[..step + 1];
    map d: nat | 1 <= d <= 9 :: Share(Count(prefix, d), step + 1)
  }

  /** Each observed frequency is the number of rows among `digits[0..step]`
      with that leading digit, divided by `step + 1`. */
  lemma ObservedValues(digits: seq<nat>, step: nat)
    requires step < |digits|
    ensures forall d :: 1 <= d <= 9 ==>
      Observed(digits, step)[d] == multiset(digits[..step + 1])[d] as real / (step + 1) as real
  {
    forall d | 1 <= d <= 9
      ensures Observed(digits, step)[d] == multiset(digits[..step + 1])[d] as real / (step + 1) as real
    {
      CountIsMultiplicity(digits[..step + 1], d);
    }
  }

  /** `c / n` as a fraction. */
  function Share(c: nat, n: nat): (r: real)
    requires 0 < n && c <= n
    ensures 0.0 <= r <= 1.0
    ensures r == 1.0 <==> c == n
  {
    c as real / n as real
  }

  /** The nine observed frequencies added up. */
  function ProfileSum(obs: map<nat, real>): real
    requires forall d: nat :: 1 <= d <= 9 ==> d in obs
  {
    obs[1] + obs[2] + obs[3] + obs[4] + obs[5] + obs[6] + obs[7] + obs[8] + obs[9]
  }

  /** Every entry of a sequence of digits is counted under exactly one of 0..9. */
  lemma {:induction false} CountsCoverDigits(s: seq<nat>)
    requires forall i :: 0 <= i < |s| ==> s[i] <= 9
    ensures Count(s, 0) + Count(s, 1) + Count(s, 2) + Count(s, 3) + Count(s, 4)
          + Count(s, 5) + Count(s, 6) + Count(s, 7) + Count(s, 8) + Count(s, 9) == |s|
  {
    if s != [] {
      var h, t := s[0], s[1..];
      CountsCoverDigits(t);
      assert Count(s, h) == Count(t, h) + 1;
      assert forall d :: d != h ==> Count(s, d) == Count(t, d);
    }
  }

  /** The observed frequencies add up to the share of rows with a non-zero
      digit in the prefix: at most 1, and exactly 1 when no zero-amount row is
      among them. */
  lemma ObservedTotal(digits: seq<nat>, step: nat)
    requires step < |digits|
    requires forall i :: 0 <= i < |digits| ==> digits[i] <= 9
    ensures ProfileSum(Observed(digits, step)) == Share(step + 1 - Count(digits[..step + 1], 0), step + 1)
    ensures ProfileSum(Observed(digits, step)) <= 1.0
    ensures ProfileSum(Observed(digits, step)) == 1.0 <==> forall i :: 0 <= i <= step ==> digits[i] != 0
  {
    var prefix := digits[..step + 1];
    ProfileSumIsShare(digits, step);
    assert forall i :: 0 <= i <= step ==> prefix[i] == digits[i];
  }

  lemma ProfileSumIsShare(digits: seq<nat>, step: nat)
    requires step < |digits|
    requires forall i :: 0 <= i < |digits| ==> digits[i] <= 9
    ensures ProfileSum(Observed(digits, step)) == Share(step + 1 - Count(digits[..step + 1], 0), step + 1)
  {
    var p := digits[..step + 1];
    ProfileSumExpand(digits, step);
    CountsCoverDigits(p);
    SumOfShares(Count(p, 0), Count(p, 1), Count(p, 2), Count(p, 3), Count(p, 4),
                Count(p, 5), Count(p, 6), Count(p, 7), Count(p, 8), Count(p, 9), step + 1);
  }

  lemma ProfileSumExpand(digits: seq<nat>, step: nat)
    requires step < |digits|
    ensures var p := digits[..step + 1];
      ProfileSum(Observed(digits, step))
        == Share(Count(p, 1), step + 1) + Share(Count(p, 2), step + 1) + Share(Count(p, 3), step + 1)
         + Share(Count(p, 4), step + 1) + Share(Count(p, 5), step + 1) + Share(Count(p, 6), step + 1)
         + Share(Count(p, 7), step + 1) + Share(Count(p, 8), step + 1) + Share(Count(p, 9), step + 1)
  {
  }

  /** With counts c0..c9 of n rows, the shares of the digits 1..9 add up to the
      share of the rows not counted under 0. */
  lemma SumOfShares(c0: nat, c1: nat, c2: nat, c3: nat, c4: nat, c5: nat, c6: nat, c7: nat, c8: nat, c9: nat, n: nat)
    requires 0 < n && c0 + c1 + c2 + c3 + c4 + c5 + c6 + c7 + c8 + c9 == n
    ensures Share(c1, n) + Share(c2, n) + Share(c3, n) + Share(c4, n) + Share(c5, n)
          + Share(c6, n) + Share(c7, n) + Share(c8, n) + Share(c9, n)
         == Share(n - c0, n)
  {
    var s2 := c1 + c2;
    var s3 := s2 + c3;
    var s4 := s3 + c4;
    var s5 := s4 + c5;
    var s6 := s5 + c6;
    var s7 := s6 + c7;
    var s8 := s7 + c8;
    calc {
      Share(c1, n) + Share(c2, n) + Share(c3, n) + Share(c4, n) + Share(c5, n)
        + Share(c6, n) + Share(c7, n) + Share(c8, n) + Share(c9, n);
      { AddShares(c1, c2, n); }
      Share(s2, n) + Share(c3, n) + Share(c4, n) + Share(c5, n)
        + Share(c6, n) + Share(c7, n) + Share(c8, n) + Share(c9, n);
      { AddShares(s2, c3, n); }
      Share(s3, n) + Share(c4, n) + Share(c5, n) + Share(c6, n) + Share(c7, n) + Share(c8, n) + Share(c9, n);
      { AddShares(s3, c4, n); }
      Share(s4, n) + Share(c5, n) + Share(c6, n) + Share(c7, n) + Share(c8, n) + Share(c9, n);
      { AddShares(s4, c5, n); }
      Share(s5, n) + Share(c6, n) + Share(c7, n) + Share(c8, n) + Share(c9, n);
      { AddShares(s5, c6, n); }
      Share(s6, n) + Share(c7, n) + Share(c8, n) + Share(c9, n);
      { AddShares(s6, c7, n); }
      Share(s7, n) + Share(c8, n) + Share(c9, n);
      { AddShares(s7, c8, n); }
      Share(s8, n) + Share(c9, n);
      { AddShares(s8, c9, n); }
      Share(s8 + c9, n);
      { assert s8 + c9 == n - c0; }
      Share(n - c0, n);
    }
  }

  lemma AddShares(a: nat, b: nat, n: nat)
    requires 0 < n && a + b <= n
    ensures Share(a, n) + Share(b, n) == Share(a + b, n)
  {
  }
}
