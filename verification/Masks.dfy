/** Masks of the form 2^hi - 2^lo applied with the bitwise `&` of C. */
module Masks {

  function Pow2(n: nat): (p: nat)
    ensures p > 0
    decreases n
  {
    if n == 0 then 1 else 2 * Pow2(n - 1)
  }

  /** Bitwise conjunction of two non-negative integers. */
  function And(x: nat, m: nat): nat
    decreases m
  {
    if m == 0 then 0 else 2 * And(x / 2, m / 2) + if x % 2 == 1 && m % 2 == 1 then 1 else 0
  }

  lemma {:induction false} Pow2Monotone(lo: nat, hi: nat)
    requires lo <= hi
    ensures Pow2(lo) <= Pow2(hi)
    ensures Pow2(hi) % Pow2(lo) == 0
    decreases hi
  {
    if lo == hi {
    } else {
      Pow2Monotone(lo, hi - 1);
      ModOfMultiple(Pow2(hi - 1), 2, Pow2(lo));
    }
  }

  lemma ModOfMultiple(a: nat, k: nat, d: nat)
    requires d > 0 && a % d == 0
    ensures (k * a) % d == 0
    decreases k
  {
    if k > 0 {
      ModOfMultiple(a, k - 1, d);
      assert k * a == (k - 1) * a + a;
      AddMultiple((k - 1) * a, a, d);
    }
  }

  lemma AddMultiple(x: nat, a: nat, d: nat)
    requires d > 0 && a % d == 0
    ensures (x + a) % d == x % d
  {
    var q, k := x / d, a / d;
    assert x + a == (q + k) * d + x % d by {
      assert (q + k) * d == q * d + k * d;
    }
    DivUnique(x + a, q + k, x % d, d);
  }

  lemma ModDouble(x: nat, p: nat)
    requires p > 0
    ensures x % (2 * p) == 2 * ((x / 2) % p) + x % 2
  {
    var h := x / 2;
    var q, r := h / p, h % p;
    assert h == q * p + r;
    assert x == 2 * h + x % 2;
    assert x == q * (2 * p) + (2 * r + x % 2);
    DivUnique(x, q, 2 * r + x % 2, 2 * p);
  }

  lemma DivUnique(x: int, q: int, r: int, d: int)
    requires 0 <= r < d && x == q * d + r
    ensures x / d == q && x % d == r
  {
    var q', r' := x / d, x % d;
    assert (q' - q) * d == r - r' by {
      assert (q' - q) * d == q' * d - q * d;
    }
    assert (q - q') * d == r' - r by {
      assert (q - q') * d == q * d - q' * d;
    }
    if q < q' {
      AtLeastOne(q' - q, d);
    } else if q' < q {
      AtLeastOne(q - q', d);
    }
  }

  lemma AtLeastOne(t: int, d: int)
    requires t >= 1 && d >= 0
    ensures t * d >= d
  {
    assert t * d == (t - 1) * d + d;
  }

  /** The low n bits. */
  function Low(x: nat, n: nat): nat { x % Pow2(n) }

  lemma LowStep(x: nat, n: nat)
    requires n > 0
    ensures Low(x, n) == 2 * Low(x / 2, n - 1) + x % 2
  {
    ModDouble(x, Pow2(n - 1));
  }

  lemma LowZero(x: nat)
    ensures Low(x, 0) == 0
  {}

  lemma {:induction false} Pow2Ordered(lo: nat, hi: nat)
    requires lo <= hi
    ensures Pow2(lo) <= Pow2(hi)
    decreases hi
  {
    if lo < hi {
      Pow2Ordered(lo, hi - 1);
    }
  }

  lemma AndEven(x: nat, m: nat)
    ensures And(x, 2 * m) == 2 * And(x / 2, m)
  {
    assert (2 * m) / 2 == m && (2 * m) % 2 == 0;
  }

  lemma AndOdd(x: nat, m: nat)
    ensures And(x, 2 * m + 1) == 2 * And(x / 2, m) + x % 2
  {
    assert (2 * m + 1) / 2 == m && (2 * m + 1) % 2 == 1;
  }

  /** A mask of ones from bit 0. */
  lemma {:induction false} LowMask(x: nat, n: nat)
    ensures And(x, Pow2(n) - 1) == Low(x, n)
    decreases n
  {
    hide Low;
    if n == 0 {
      LowZero(x);
    } else {
      LowMask(x / 2, n - 1);
      var half := Pow2(n - 1) - 1;
      assert Pow2(n) - 1 == 2 * half + 1;
      AndOdd(x, half);
      LowStep(x, n);
    }
  }

  /** A mask of ones from bit lo. */
  lemma {:induction false} ShiftedMask(x: nat, hi: nat, lo: nat)
    requires lo <= hi
    ensures Pow2(lo) <= Pow2(hi)
    ensures And(x, Pow2(hi) - Pow2(lo)) == Low(x, hi) - Low(x, lo)
    decreases hi
  {
    hide Low;
    Pow2Ordered(lo, hi);
    if lo == 0 {
      LowMask(x, hi);
      LowZero(x);
    } else {
      ShiftedMask(x / 2, hi - 1, lo - 1);
      var half := Pow2(hi - 1) - Pow2(lo - 1);
      assert Pow2(hi) - Pow2(lo) == 2 * half;
      AndEven(x, half);
      LowStep(x, hi);
      LowStep(x, lo);
    }
  }

  /** Masking with 2^hi - 2^lo keeps bits lo..hi-1. */
  lemma MaskKeepsBits(x: nat, hi: nat, lo: nat)
    requires lo <= hi
    ensures Pow2(lo) <= Pow2(hi)
    ensures And(x, Pow2(hi) - Pow2(lo)) == x % Pow2(hi) - x % Pow2(lo)
  {
    ShiftedMask(x, hi, lo);
  }
}
