/** The little arithmetic the layout proofs rest on: multiples, and rounding up to them. Both are
    defined by counting, which keeps products out of every proof that only needs their order. */
module Arith {

  /** n is a multiple of `to`; everything is a multiple of a step of at most one. */
  predicate Aligned(n: nat, to: nat) {
    to <= 1 || (if n < to then n == 0 else Aligned(n - to, to))
  }

  /** The first multiple of `to` at or above n, counting up from m. */
  function UpFrom(m: nat, n: nat, to: nat): nat
    requires to > 1
    decreases n - m
  {
    if m >= n then m else UpFrom(m + to, n, to)
  }

  function AlignUp(n: nat, to: nat): nat {
    if to <= 1 then n else UpFrom(0, n, to)
  }

  lemma {:induction false} AlignedStep(n: nat, to: nat)
    ensures Aligned(n + to, to) <==> Aligned(n, to)
  {
  }

  lemma {:induction false} AlignedSum(a: nat, b: nat, to: nat)
    requires Aligned(a, to) && Aligned(b, to)
    ensures Aligned(a + b, to)
  {
    if to > 1 && a >= to {
      AlignedSum(a - to, b, to);
      AlignedStep(a - to + b, to);
    }
  }

  lemma {:induction false} AlignedDifference(a: nat, b: nat, to: nat)
    requires Aligned(a, to) && Aligned(b, to) && b <= a
    ensures Aligned(a - b, to)
  {
    if to > 1 && b >= to {
      AlignedDifference(a - to, b - to, to);
    }
  }

  /** Multiples closer than one step are equal or in order. */
  lemma AlignedGap(a: nat, b: nat, to: nat)
    requires Aligned(a, to) && Aligned(b, to) && a < b + to
    ensures to > 1 ==> a <= b
  {
    if to > 1 && a > b {
      AlignedDifference(a, b, to);
    }
  }

  lemma {:induction false} UpFromLeast(m: nat, n: nat, to: nat, k: nat)
    requires to > 1 && Aligned(m, to) && m < n + to
    ensures n <= UpFrom(m, n, to) < n + to && Aligned(UpFrom(m, n, to), to)
    ensures n <= k && Aligned(k, to) ==> UpFrom(m, n, to) <= k
    decreases n - m
  {
    if m < n {
      AlignedStep(m, to);
      UpFromLeast(m + to, n, to, k);
    } else if n <= k && Aligned(k, to) {
      AlignedGap(m, k, to);
    }
  }

  /** AlignUp is the least multiple at or above n, and misses n by less than one step. */
  lemma AlignUpLeast(n: nat, to: nat, m: nat)
    ensures n <= AlignUp(n, to) && Aligned(AlignUp(n, to), to)
    ensures to > 1 ==> AlignUp(n, to) < n + to
    ensures n <= m && Aligned(m, to) ==> AlignUp(n, to) <= m
    ensures Aligned(n, to) ==> AlignUp(n, to) == n
  {
    if to > 1 {
      UpFromLeast(0, n, to, m);
      UpFromLeast(0, n, to, n);
    }
  }

  lemma MulLeast(k: int, to: nat)
    ensures k >= 1 ==> k * to >= to
    ensures k <= -1 ==> k * to + to <= 0
  {
  }

  lemma DivModUnique(n: int, to: nat, q: int, r: int)
    requires 0 <= r < to && n == q * to + r
    ensures n / to == q && n % to == r
  {
    var p := n / to;
    assert n == p * to + n % to;
    MulLeast(p - q, to);
    assert (p - q) * to == p * to - q * to;
  }

  /** Counting multiples is the remainder test. */
  lemma {:induction false} AlignedRemainder(n: nat, to: nat)
    requires to > 1
    ensures Aligned(n, to) <==> n % to == 0
  {
    if n < to {
      DivModUnique(n, to, 0, n);
    } else {
      AlignedRemainder(n - to, to);
      var q, r := (n - to) / to, (n - to) % to;
      assert (q + 1) * to == q * to + to;
      DivModUnique(n, to, q + 1, r);
    }
  }

  /** Rounding up by counting is rounding up by dividing. */
  lemma AlignUpFormula(n: nat, to: nat)
    ensures AlignUp(n, to) == if to <= 1 then n else (n + to - 1) / to * to
  {
    if to > 1 {
      var q := (n + to - 1) / to;
      assert n + to - 1 == q * to + (n + to - 1) % to;
      MulLeast(q, to);
      DivModUnique(q * to, to, q, 0);
      AlignedRemainder(q * to, to);
      AlignUpLeast(n, to, q * to);
      AlignedGap(q * to, AlignUp(n, to), to);
    }
  }

  // ---- powers of two ----

  predicate PowerOfTwo(n: nat) {
    n == 1 || (n > 0 && n % 2 == 0 && PowerOfTwo(n / 2))
  }

  function Doubled(k: nat): nat {
    if k == 0 then 1 else 2 * Doubled(k - 1)
  }

  /** The powers of two are what doubling one gives. */
  lemma {:induction false} PowerIsDoubled(n: nat)
    ensures PowerOfTwo(n) <==> exists k: nat :: n == Doubled(k)
  {
    if PowerOfTwo(n) && n > 1 {
      PowerIsDoubled(n / 2);
      var k: nat :| n / 2 == Doubled(k);
      assert n == Doubled(k + 1);
    } else if n == 1 {
      assert n == Doubled(0);
    }
    forall k: nat | n == Doubled(k)
      ensures PowerOfTwo(n)
    {
      DoubledIsPower(k);
    }
  }

  lemma {:induction false} DoubledIsPower(k: nat)
    ensures PowerOfTwo(Doubled(k))
  {
    if k > 0 {
      DoubledIsPower(k - 1);
    }
  }

  lemma {:induction false} AlignedDouble(n: nat, to: nat)
    requires Aligned(n, to) && to > 0
    ensures Aligned(2 * n, 2 * to)
  {
    if to == 1 {
      EvenAligned(n);
    } else if n >= to {
      AlignedDouble(n - to, to);
    }
  }

  lemma {:induction false} EvenAligned(n: nat)
    ensures Aligned(2 * n, 2)
  {
    if n > 0 {
      EvenAligned(n - 1);
    }
  }

  /** Of two powers of two, the larger is a multiple of the smaller. */
  lemma {:induction false} PowersAligned(a: nat, b: nat)
    requires PowerOfTwo(a) && PowerOfTwo(b) && b <= a
    ensures Aligned(a, b)
  {
    if b > 1 {
      PowersAligned(a / 2, b / 2);
      AlignedDouble(a / 2, b / 2);
    }
  }

  lemma {:induction false} AlignedTransitive(n: nat, a: nat, b: nat)
    requires Aligned(n, a) && Aligned(a, b) && a > 0
    ensures Aligned(n, b)
  {
    if b > 1 && a > 1 && n >= a {
      AlignedTransitive(n - a, a, b);
      AlignedSum(n - a, a, b);
    }
  }

  /** The last multiple of `to` at or below n. */
  function AlignDown(n: nat, to: nat): nat
    requires to > 0
  {
    if n < to then 0 else to + AlignDown(n - to, to)
  }

  lemma {:induction false} AlignDownGreatest(n: nat, to: nat)
    requires to > 0
    ensures AlignDown(n, to) <= n < AlignDown(n, to) + to && Aligned(AlignDown(n, to), to)
  {
    if n >= to {
      AlignDownGreatest(n - to, to);
      AlignedStep(AlignDown(n - to, to), to);
    }
  }
}
