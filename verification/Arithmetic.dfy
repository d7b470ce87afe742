/** Quotients and remainders of natural numbers, in the small steps the proofs need. */
module Arithmetic {
  import opened Powers

  /** `m >> bits` */
  function ShiftRight(m: nat, bits: nat): nat {
    Quotient(m, Pow2(bits))
  }

  function Quotient(m: nat, d: nat): nat
    requires d > 0
  {
    m / d
  }

  /** `m & bitmask(bits)` */
  function LowBits(m: nat, bits: nat): (r: nat)
    ensures r < Pow2(bits)
  {
    m % Pow2(bits)
  }

  lemma MultiplesApart(a: int, b: int, m: int)
    requires a < b && m > 0
    ensures a * m + m <= b * m
  {
    var d := b - a - 1;
    assert d * m >= 0;
    assert b * m == (a + 1 + d) * m == a * m + m + d * m;
  }

  lemma DivisionUnique(k: int, r: int, k': int, r': int, m: int)
    requires m > 0 && k * m + r == k' * m + r' && 0 <= r < m && 0 <= r' < m
    ensures k == k' && r == r'
  {
    if k < k' {
      MultiplesApart(k, k', m);
    } else if k' < k {
      MultiplesApart(k', k, m);
    }
  }

  lemma QuotientRemainder(y: int, k: int, r: int, m: int)
    requires m > 0 && y == k * m + r && 0 <= r < m
    ensures y / m == k && y % m == r
  {
    var k', r' := y / m, y % m;
    assert y == k' * m + r';
    DivisionUnique(k, r, k', r', m);
  }

  lemma QuotientAtLeastOne(m: nat, d: nat)
    requires 0 < d <= m
    ensures m / d > 0
  {
    var q := m / d;
    assert m == q * d + m % d;
    if q < 1 {
      MultiplesApart(q, 1, d);
    }
  }

  lemma SameResidue(x: int, y: int, q: int, m: int)
    requires m > 0 && y == x + q * m
    ensures x % m == y % m
  {
    var r, k := x % m, x / m;
    assert x == k * m + r;
    assert y == (k + q) * m + r;
    QuotientRemainder(y, k + q, r, m);
  }

  lemma ModAdd(x: int, y: int, m: int)
    requires m > 0
    ensures (x % m + y) % m == (x + y) % m
  {
    var q := x / m;
    assert x == q * m + x % m;
    SameResidue(x % m + y, x + y, q, m);
  }

  lemma ScaledResidue(p: int, w: int, q: int)
    requires p > 0 && q > 0
    ensures p * q > 0 && (p * w) % (p * q) == p * (w % q)
  {
    var k, r := w / q, w % q;
    var m := p * q;
    assert w == k * q + r;
    assert p * w == p * (k * q) + p * r;
    assert p * (k * q) == k * m;
    MultiplesApart(r, q, p);
    Commutes(r, p);
    Commutes(q, p);
    assert p * r >= 0;
    QuotientRemainder(p * w, k, p * r, m);
  }

  lemma EqualResidues(x: int, y: int, m: int) returns (q: int)
    requires m > 0 && x % m == y % m
    ensures y - x == q * m
  {
    q := y / m - x / m;
    assert y == (y / m) * m + y % m;
    assert x == (x / m) * m + x % m;
    assert q * m == (y / m) * m - (x / m) * m;
  }

  lemma Commutes(x: int, y: int)
    ensures x * y == y * x
  {
  }

  lemma Associates(x: int, y: int, z: int)
    ensures (x * y) * z == x * (y * z)
  {
  }

  lemma Distributes(x: int, y: int, z: int)
    ensures (x + y) * z == x * z + y * z
  {
  }

  /** Two divisions in a row: the digits of `m` with the inner digit below `l`, the next below `s`. */
  lemma TwoDigits(m: nat, t: nat, u: nat, v: nat, s: nat, l: nat)
    requires l > 0 && s > 0 && m == (t * s + u) * l + v && u < s && v < l
    ensures m == t * (s * l) + (u * l + v)
    ensures 0 <= u * l + v < s * l
  {
    Distributes(t * s, u, l);
    Associates(t, s, l);
    MultiplesApart(u, s, l);
    assert u * l >= 0;
  }

  /** Dividing by a product is dividing by one factor and then by the other. */
  lemma DivideTwice(m: nat, l: nat, s: nat)
    requires l > 0 && s > 0
    ensures m / (s * l) == m / l / s
    ensures m / l == m / (s * l) * s + m / l % s
  {
    var q, v := m / l, m % l;
    var t, u := q / s, q % s;
    assert q == t * s + u;
    assert m == q * l + v;
    TwoDigits(m, t, u, v, s, l);
    assert s * l > 0;
    QuotientRemainder(m, t, u * l + v, s * l);
  }

  /** The three digits of `m` put together again. */
  lemma ThreeDigits(m: nat, l: nat, s: nat)
    requires l > 0 && s > 0
    ensures (m / (s * l) * s + m / l % s) * l + m % l == m
  {
    DivideTwice(m, l, s);
    var q := m / l;
    assert m == q * l + m % l;
  }
}
