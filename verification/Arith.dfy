/** Integer helpers shared by every layout computation. */
module Arith {

  const KB: nat := 1024
  const PAGE_SIZE: nat := 4096
  const WORD := 0x1_0000_0000

  /** A C `uint32_t` conversion: the value modulo 2^32, for negative operands too. */
  function U32(x: int): (r: nat)
    ensures r < WORD
    ensures 0 <= x < WORD ==> r == x
  {
    x % WORD
  }

  /** The number that a 32-bit word is in two's complement. */
  function Signed32(x: nat): int {
    if x < 0x8000_0000 then x else x - WORD
  }

  /** `x & -n` for a power of two `n`. */
  function RoundDown(x: nat, n: nat): nat
    requires n > 0
  {
    x / n * n
  }

  function RoundUp(x: nat, n: nat): (r: nat)
    requires n > 0
  {
    RoundDown(x + n - 1, n)
  }

  /** RoundUp is the least multiple of `n` that is not below `x`. */
  lemma RoundUpIsLeast(x: nat, n: nat)
    requires n > 0
    ensures x <= RoundUp(x, n) < x + n
    ensures RoundUp(x, n) % n == 0
    ensures forall y :: y >= x && y % n == 0 ==> RoundUp(x, n) <= y
  {
    var q := (x + n - 1) / n;
    assert q * n + (x + n - 1) % n == x + n - 1;
    assert RoundUp(x, n) == q * n;
    MulMod(q, n);
    forall y | y >= x && y % n == 0 ensures q * n <= y
    {
      var p := y / n;
      assert y == p * n;
      if p < q {
        MulStep(p, q, n);
      } else {
        MulLe(q, p, n);
      }
    }
  }

  lemma RoundUpMonotone(x: nat, y: nat, n: nat)
    requires n > 0 && x <= y
    ensures RoundUp(x, n) <= RoundUp(y, n)
  {
    RoundUpIsLeast(x, n);
    RoundUpIsLeast(y, n);
  }

  /** Alignment to `m` implies alignment to every divisor of `m`. */
  lemma ModDivisor(x: nat, k: nat, n: nat)
    requires n > 0 && k > 0 && k * n > 0 && x % (k * n) == 0
    ensures x % n == 0
  {
    var q := x / (k * n);
    assert x == q * (k * n) == (q * k) * n;
    MulMod(q * k, n);
  }

  lemma MulMod(q: nat, n: nat)
    requires n > 0
    ensures (q * n) % n == 0
  {
    if q == 0 {
      assert 0 * n == 0;
    } else {
      MulMod(q - 1, n);
      assert q * n == (q - 1) * n + n;
      AddMod((q - 1) * n, n);
    }
  }

  lemma AddMod(x: nat, n: nat)
    requires n > 0
    ensures (x + n) % n == x % n
  {
    assert x + n == (x / n + 1) * n + x % n by {
      assert (x / n + 1) * n == x / n * n + n;
    }
    DivModUnique(x + n, n, x / n + 1, x % n);
  }

  lemma DivModUnique(x: nat, n: nat, q: nat, r: nat)
    requires n > 0 && r < n && x == q * n + r
    ensures x / n == q && x % n == r
  {
    var p := x / n;
    if p < q {
      MulStep(p, q, n);
    } else if q < p {
      MulStep(q, p, n);
    }
  }

  lemma MulLe(a: nat, b: nat, n: nat)
    requires a <= b
    ensures a * n <= b * n
  {
    assert b * n == a * n + (b - a) * n;
    MulNonNeg(b - a, n);
  }

  lemma MulNonNeg(a: nat, n: nat)
    ensures a * n >= 0
  {
  }

  /** Distinct indexes of a table with records of `n` bytes get disjoint records. */
  lemma MulStep(a: nat, b: nat, n: nat)
    requires a < b
    ensures a * n + n <= b * n
  {
    assert b * n == a * n + n + (b - a - 1) * n;
    MulNonNeg(b - a - 1, n);
  }

  function Pow2(n: nat): (p: nat)
    ensures p > 0
  {
    if n == 0 then 1 else 2 * Pow2(n - 1)
  }

  lemma {:induction false} Pow2Monotone(a: nat, b: nat)
    requires a <= b
    ensures Pow2(a) <= Pow2(b)
    decreases b
  {
    if a < b {
      Pow2Monotone(a, b - 1);
    }
  }
}
