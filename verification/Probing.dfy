/** The probe sequence of the hash table: steps of 1, 2, 3, ... modulo a power of two. */
module Probing {
  import opened Arithmetic
  import opened Powers

  /** 1 + 2 + ... + i. */
  function Triangle(i: nat): nat {
    if i == 0 then 0 else Triangle(i - 1) + i
  }

  /** The bucket of the probe after `i` jumps from the bucket of hash `h`; masking with
      `buckets - 1` is the remainder, `buckets` being a power of two. */
  function Probe(h: nat, i: nat, buckets: nat): (p: nat)
    requires buckets > 0
    ensures p < buckets
  {
    (h + Triangle(i)) % buckets
  }

  lemma FirstProbe(h: nat, buckets: nat)
    requires buckets > 0
    ensures Probe(h, 0, buckets) == h % buckets
  {
  }

  lemma NextProbe(h: nat, i: nat, buckets: nat)
    requires buckets > 0
    ensures Probe(h, i + 1, buckets) == (Probe(h, i, buckets) + i + 1) % buckets
  {
    var x := h + Triangle(i);
    ModAdd(x, i + 1, buckets);
  }

  lemma {:induction false} TriangleIs(i: nat)
    ensures 2 * Triangle(i) == i * (i + 1)
  {
    if i > 0 {
      TriangleIs(i - 1);
    }
  }

  /** The jumps from probe i to probe j, doubled, are a product of factors of opposite parity. */
  lemma TriangleDifference(i: nat, j: nat)
    ensures 2 * (Triangle(j) - Triangle(i)) == (j - i) * (j + i + 1)
  {
    TriangleIs(i);
    TriangleIs(j);
    assert (j - i) * (j + i + 1) == j * (j + i + 1) - i * (j + i + 1);
    assert j * (j + i + 1) == j * (j + 1) + j * i;
    assert i * (j + i + 1) == i * (i + 1) + i * j;
  }

  /** No bucket is visited twice in the first `buckets` probes. */
  lemma ProbesDistinct(h: nat, i: nat, j: nat, k: nat)
    requires i < j < Pow2(k)
    ensures Probe(h, i, Pow2(k)) != Probe(h, j, Pow2(k))
  {
    hide Triangle, Pow2;
    var b := Pow2(k);
    if Probe(h, i, b) == Probe(h, j, b) {
      var q := EqualResidues(h + Triangle(i), h + Triangle(j), b);
      TriangleDifference(i, j);
      Doubled(j - i, j + i + 1, q, k);
    }
  }

  lemma Doubled(x: int, y: int, q: int, k: nat)
    requires 0 < x < Pow2(k) && 0 < y < 2 * Pow2(k) && (x + y) % 2 == 1
    ensures 2 * (q * Pow2(k)) != x * y
  {
    var b := Pow2(k);
    assert Pow2(k + 1) == 2 * b;
    assert 2 * (q * b) == q * (2 * b);
    NoSuchProduct(x, y, q, k + 1);
  }

  lemma NoSuchProduct(x: int, y: int, q: int, k: nat)
    requires 0 < x < Pow2(k) && 0 < y < Pow2(k) && (x + y) % 2 == 1
    ensures x * y != q * Pow2(k)
  {
    hide Pow2;
    if x % 2 == 1 {
      NoOddProduct(x, y, q, k);
    } else {
      NoOddProduct(y, x, q, k);
      Commutes(x, y);
    }
  }

  lemma NoOddProduct(x: int, y: int, q: int, k: nat)
    requires x % 2 == 1 && 0 < y < Pow2(k)
    ensures x * y != q * Pow2(k)
  {
    hide Pow2;
    if x * y == q * Pow2(k) {
      var r := OddFactor(k, x, y, q);
      NoMultipleBelow(y, r, Pow2(k));
    }
  }

  lemma NoMultipleBelow(x: int, r: int, m: int)
    requires 0 < x < m
    ensures x != r * m
  {
    if r >= 1 {
      assert r * m >= m;
    } else {
      assert r * m <= 0;
    }
  }

  /** The buckets visited by the first `n` probes. */
  ghost function Visited(h: nat, n: nat, buckets: nat): set<nat>
    requires buckets > 0
  {
    if n == 0 then {} else Visited(h, n - 1, buckets) + {Probe(h, n - 1, buckets)}
  }

  lemma {:induction false} VisitedMembers(h: nat, n: nat, buckets: nat)
    requires buckets > 0
    ensures forall p :: p in Visited(h, n, buckets) <==> exists i: nat :: i < n && Probe(h, i, buckets) == p
  {
    hide Probe;
    if n > 0 {
      VisitedMembers(h, n - 1, buckets);
    }
  }

  lemma {:induction false} ProbesBelow(h: nat, n: nat, buckets: nat)
    requires buckets > 0
    ensures Visited(h, n, buckets) <= Below(buckets)
  {
    hide Probe;
    if n > 0 {
      ProbesBelow(h, n - 1, buckets);
    }
  }

  lemma {:induction false} VisitedCount(h: nat, n: nat, k: nat)
    requires n <= Pow2(k)
    ensures |Visited(h, n, Pow2(k))| == n
  {
    if n > 0 {
      var b := Pow2(k);
      VisitedCount(h, n - 1, k);
      VisitedMembers(h, n - 1, b);
      if Probe(h, n - 1, b) in Visited(h, n - 1, b) {
        var i: nat :| i < n - 1 && Probe(h, i, b) == Probe(h, n - 1, b);
        ProbesDistinct(h, i, n - 1, k);
      }
    }
  }

  /** The buckets 0 .. n - 1. */
  ghost function Below(n: nat): (s: set<nat>)
    ensures |s| == n
    ensures forall p: nat :: p in s <==> p < n
  {
    if n == 0 then {} else Below(n - 1) + {n - 1}
  }

  lemma SubsetOfSameSize<T>(x: set<T>, y: set<T>)
    requires x <= y && |x| == |y|
    ensures x == y
  {
    if exists e :: e in y && e !in x {
      var e :| e in y && e !in x;
      SubsetSize(x, y - {e});
    }
  }

  lemma {:induction false} SubsetSize<T>(x: set<T>, y: set<T>)
    requires x <= y
    ensures |x| <= |y|
  {
    if x != {} {
      var e :| e in x;
      SubsetSize(x - {e}, y - {e});
    }
  }

  /** From any hash, the first `buckets` probes visit every bucket. */
  lemma ProbesCover(h: nat, p: nat, buckets: nat)
    requires IsPow2(buckets) && p < buckets
    ensures exists i: nat :: i < buckets && Probe(h, i, buckets) == p
  {
    hide Probe, Visited, Below, Pow2;
    var k: nat :| buckets == Pow2(k);
    var all := Below(buckets);
    VisitedCount(h, buckets, k);
    VisitedMembers(h, buckets, buckets);
    ProbesBelow(h, buckets, buckets);
    SubsetOfSameSize(Visited(h, buckets, buckets), all);
    assert p in Visited(h, buckets, buckets);
  }
}
