/** Powers of two. */
module Powers {

  function Pow2(n: nat): (p: nat)
    ensures p > 0
  {
    if n == 0 then 1 else 2 * Pow2(n - 1)
  }

  /** `n >> i`, one place at a time. */
  function Shifted(n: nat, i: nat): nat {
    if i == 0 then n else Shifted(n / 2, i - 1)
  }

  predicate Bit(n: nat, i: nat) {
    Shifted(n, i) % 2 == 1
  }

  ghost predicate IsPow2(b: int) {
    exists k: nat :: b == Pow2(k)
  }

  lemma {:induction false} Pow2Adds(m: nat, n: nat)
    ensures Pow2(m + n) == Pow2(m) * Pow2(n)
  {
    if m > 0 {
      Pow2Adds(m - 1, n);
    }
  }

  lemma Pow2Of32()
    ensures Pow2(16) == 0x1_0000 && Pow2(32) == 0x1_0000_0000
  {
    assert Pow2(8) == 256;
    Pow2Adds(8, 8);
    Pow2Adds(16, 16);
  }

  lemma {:induction false} Pow2Monotonic(m: nat, n: nat)
    requires m <= n
    ensures Pow2(m) <= Pow2(n)
    decreases n
  {
    if m < n {
      Pow2Monotonic(m, n - 1);
    }
  }

  /** A power of two that divides a product with an odd factor divides the other factor. */
  lemma {:induction false} OddFactor(k: nat, x: int, y: int, q: int) returns (r: int)
    requires x % 2 == 1 && x * y == q * Pow2(k)
    ensures y == r * Pow2(k)
  {
    if k == 0 {
      r := y;
    } else {
      var x', p := x / 2, Pow2(k - 1);
      assert x == 2 * x' + 1;
      assert x * y == 2 * (q * p);
      assert x * y == 2 * (x' * y) + y;
      var y' := y / 2;
      assert y == 2 * (q * p - x' * y);
      assert y == 2 * y';
      assert x * y == 2 * (x * y');
      r := OddFactor(k - 1, x, y', q);
      assert y == r * Pow2(k) by { assert y == 2 * (r * p) && r * Pow2(k) == r * (2 * p); }
    }
  }
}
