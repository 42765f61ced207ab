/**
 * The cyclic replay cursor over the annotated batch and the capital analysed
 * so far: tick `n` shows row `n % size` in pass `n / size`, and the capital
 * counts every full pass plus the current pass up to and including that row.
 */
module Replay {

  datatype Cursor = Cursor(loops: nat, step: nat)

  /** The pass number and the position within the batch at tick `n`. */
  function Advance(n: nat, size: nat): (c: Cursor)
    requires size > 0
    ensures c.loops * size + c.step == n
    ensures c.step < size
  {
    Cursor(n / size, n % size)
  }

  /** The sum of a sequence of amounts. */
  function Total(xs: seq<real>): real
  {
    if xs == [] then 0.0 else xs[0] + Total(xs[1..])
  }

  /** Extending a prefix by one element adds that element to its total. */
  lemma {:induction false} TotalPrefixStep(xs: seq<real>, k: nat)
    requires k < |xs|
    ensures Total(xs[..k + 1]) == Total(xs[..k]) + xs[k]
  {
    if k > 0 {
      TotalPrefixStep(xs[1..], k - 1);
      assert xs[..k + 1][1..] == xs[1..][..k];
      assert xs[..k][1..] == xs[1..][..k - 1];
    } else {
      assert xs[..1][1..] == [];
    }
  }

  /** The capital analysed up to tick `n`. */
  function Capital(amounts: seq<real>, n: nat): real
    requires |amounts| > 0
  {
    var loops, step := n / |amounts|, n % |amounts|;
    loops as real * Total(amounts) + Total(amounts[..step + 1])
  }

  /** Reference definition: the amounts of the rows shown at ticks 0, 1, ..., n. */
  function CyclicTotal(amounts: seq<real>, n: nat): real
    requires |amounts| > 0
  {
    (if n == 0 then 0.0 else CyclicTotal(amounts, n - 1)) + amounts[n % |amounts|]
  }

  /** Quotient and remainder are the only pair with `q * size + r == n` and `r < size`. */
  lemma DivModUnique(n: nat, size: nat, q: nat, r: nat)
    requires size > 0 && r < size && q * size + r == n
    ensures n / size == q && n % size == r
  {
    var q0, r0 := n / size, n % size;
    assert q0 * size + r0 == n;
    if q0 < q {
      assert (q - q0) * size == r0 - r;
      MulAtLeast(q - q0, size);
    } else if q < q0 {
      assert (q0 - q) * size == r - r0;
      MulAtLeast(q0 - q, size);
    }
  }

  lemma MulAtLeast(k: nat, size: nat)
    requires k >= 1
    ensures k * size >= size
  {
  }

  /** One tick later the cursor moves to the next row, wrapping to row 0 of the next pass. */
  lemma AdvanceNext(n: nat, size: nat)
    requires size > 0
    ensures var c := Advance(n, size);
      Advance(n + 1, size) == if c.step + 1 < size then Cursor(c.loops, c.step + 1) else Cursor(c.loops + 1, 0)
  {
    var c := Advance(n, size);
    if c.step + 1 < size {
      DivModUnique(n + 1, size, c.loops, c.step + 1);
    } else {
      assert (c.loops + 1) * size + 0 == n + 1;
      DivModUnique(n + 1, size, c.loops + 1, 0);
    }
  }

  /** The capital one tick later adds exactly the amount of the row then shown. */
  lemma CapitalNext(amounts: seq<real>, n: nat)
    requires |amounts| > 0
    ensures Capital(amounts, n + 1) == Capital(amounts, n) + amounts[(n + 1) % |amounts|]
  {
    var size, total := |amounts|, Total(amounts);
    var c := Advance(n, size);
    AdvanceNext(n, size);
    if c.step + 1 < size {
      TotalPrefixStep(amounts, c.step + 1);
    } else {
      assert Capital(amounts, n) == c.loops as real * total + total by {
        assert amounts[..c.step + 1] == amounts;
      }
      assert Capital(amounts, n + 1) == (c.loops + 1) as real * total + amounts[0] by {
        FirstTotal(amounts);
      }
    }
  }

  lemma FirstTotal(amounts: seq<real>)
    requires |amounts| > 0
    ensures Total(amounts[..1]) == amounts[0]
  {
    assert amounts[..1][1..] == [];
  }

  lemma CapitalZero(amounts: seq<real>)
    requires |amounts| > 0
    ensures Capital(amounts, 0) == amounts[0]
  {
    DivModUnique(0, |amounts|, 0, 0);
    FirstTotal(amounts);
  }

  /** The closed form equals the running total over every tick so far. */
  lemma {:induction false} CapitalIsCyclicTotal(amounts: seq<real>, n: nat)
    requires |amounts| > 0
    ensures Capital(amounts, n) == CyclicTotal(amounts, n)
  {
    if n == 0 {
      CapitalZero(amounts);
    } else {
      CapitalIsCyclicTotal(amounts, n - 1);
      CapitalNext(amounts, n - 1);
    }
  }

  /** With no negative amounts the capital never decreases from one tick to a later one. */
  lemma {:induction false} CapitalMonotone(amounts: seq<real>, n: nat, m: nat)
    requires |amounts| > 0
    requires forall i :: 0 <= i < |amounts| ==> amounts[i] >= 0.0
    requires n <= m
    ensures Capital(amounts, n) <= Capital(amounts, m)
    decreases m - n
  {
    if n < m {
      CapitalMonotone(amounts, n, m - 1);
      CapitalNext(amounts, m - 1);
    }
  }

  /** A negative amount (a refund) makes the capital fall: monotonicity needs non-negative amounts. */
  lemma CapitalCanDecrease()
    ensures Capital([1.0, -1.0], 1) < Capital([1.0, -1.0], 0)
  {
    CapitalNext([1.0, -1.0], 0);
    CapitalZero([1.0, -1.0]);
  }

  /** The last tick of the first pass has seen the whole batch once; the next tick
      wraps to row 0 and adds only its amount. */
  lemma CapitalWraps(amounts: seq<real>)
    requires |amounts| > 0
    ensures Capital(amounts, |amounts| - 1) == Total(amounts)
    ensures Capital(amounts, |amounts|) == Total(amounts) + amounts[0]
  {
    var size := |amounts|;
    FirstPass(amounts);
    calc {
      Capital(amounts, size);
      { CapitalNext(amounts, size - 1); }
      Capital(amounts, size - 1) + amounts[size % size];
      { DivModUnique(size, size, 1, 0); }
      Total(amounts) + amounts[0];
    }
  }

  lemma FirstPass(amounts: seq<real>)
    requires |amounts| > 0
    ensures Capital(amounts, |amounts| - 1) == Total(amounts)
  {
    CapitalBeforeWrap(amounts, |amounts| - 1);
    assert amounts[..|amounts|] == amounts;
  }

  /** Before the replay wraps, the capital is the total of the rows shown so far. */
  lemma CapitalBeforeWrap(amounts: seq<real>, n: nat)
    requires n < |amounts|
    ensures Capital(amounts, n) == Total(amounts[..n + 1])
  {
    var c := Advance(n, |amounts|);
    DivModUnique(n, |amounts|, 0, n);
    assert c.loops == 0 && c.step == n;
  }
}
