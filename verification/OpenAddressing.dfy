/** The table of an open-addressing hash table as a value: what its buckets mean as a finite
    map, and what filling or burying one bucket does to that meaning. */
module OpenAddressing {
  import opened Powers
  import opened Probing

  datatype Bucket<K, V> = Bucket(key: K, value: V)

  /** The two reserved keys and the hash function. */
  datatype Keying<!K> = Keying(empty: K, deleted: K, hash: K -> nat)

  type Table<K, V> = seq<Bucket<K, V>>

  predicate Ordinary<K(==)>(g: Keying<K>, k: K) {
    k != g.empty && k != g.deleted
  }

  /** How many buckets are not empty, tombstones included. */
  ghost function Occupied<K, V>(g: Keying<K>, t: Table<K, V>): (n: nat)
    ensures n <= |t|
  {
    if t == [] then 0 else
      Occupied(g, t[..|t| - 1]) + if t[|t| - 1].key == g.empty then 0 else 1
  }

  /** How many buckets are tombstones. */
  ghost function Tombs<K, V>(g: Keying<K>, t: Table<K, V>): (n: nat)
    ensures n <= |t|
  {
    if t == [] then 0 else
      Tombs(g, t[..|t| - 1]) + if t[|t| - 1].key == g.deleted then 1 else 0
  }

  /** The finite map the table stands for. */
  ghost function Contents<K, V>(g: Keying<K>, t: Table<K, V>): map<K, V> {
    if t == [] then map[] else
      var b := t[|t| - 1];
      var m := Contents(g, t[..|t| - 1]);
      if Ordinary(g, b.key) then m[b.key := b.value] else m
  }

  ghost predicate DistinctKeys<K, V>(g: Keying<K>, t: Table<K, V>) {
    forall p: nat, q: nat :: p < q < |t| && Ordinary(g, t[p].key) ==> t[p].key != t[q].key
  }

  /** Probing for `k` comes to bucket `p` after `i` jumps, none of the buckets before being empty. */
  ghost predicate Leads<K, V>(g: Keying<K>, t: Table<K, V>, k: K, p: nat, i: nat) {
    && i < |t|
    && Probe(g.hash(k), i, |t|) == p
    && forall j: nat :: j < i ==> t[Probe(g.hash(k), j, |t|)].key != g.empty
  }

  ghost predicate Reachable<K, V>(g: Keying<K>, t: Table<K, V>, k: K, p: nat) {
    exists i: nat :: Leads(g, t, k, p, i)
  }

  ghost predicate AllReachable<K, V>(g: Keying<K>, t: Table<K, V>) {
    forall p: nat :: p < |t| && Ordinary(g, t[p].key) ==> Reachable(g, t, t[p].key, p)
  }

  ghost predicate Sound<K, V>(g: Keying<K>, t: Table<K, V>) {
    && g.empty != g.deleted
    && IsPow2(|t|)
    && DistinctKeys(g, t)
    && AllReachable(g, t)
  }

  // ---- What the contents are ----

  lemma {:induction false} ContentsKeys<K, V>(g: Keying<K>, t: Table<K, V>, k: K)
    ensures k in Contents(g, t) <==> Ordinary(g, k) && exists p: nat :: p < |t| && t[p].key == k
  {
    if t != [] {
      var init := t[..|t| - 1];
      ContentsKeys(g, init, k);
      if p: nat :| p < |init| && init[p].key == k {
        assert t[p].key == k;
      }
      if p: nat :| p < |t| && t[p].key == k {
        assert p == |t| - 1 || init[p].key == k;
      }
    }
  }

  lemma {:induction false} ContentsAt<K, V>(g: Keying<K>, t: Table<K, V>, p: nat)
    requires DistinctKeys(g, t) && p < |t| && Ordinary(g, t[p].key)
    ensures t[p].key in Contents(g, t) && Contents(g, t)[t[p].key] == t[p].value
    decreases |t|
  {
    var init := t[..|t| - 1];
    if p < |t| - 1 {
      assert DistinctKeys(g, init);
      assert init[p] == t[p];
      ContentsAt(g, init, p);
      assert t[p].key != t[|t| - 1].key;
    }
  }

  /** The number of keys is the number of occupied buckets less the tombstones. */
  lemma {:induction false} ContentsSize<K, V>(g: Keying<K>, t: Table<K, V>)
    requires DistinctKeys(g, t) && g.empty != g.deleted
    ensures |Contents(g, t)| == Occupied(g, t) - Tombs(g, t)
    decreases |t|
  {
    if t != [] {
      var n := |t| - 1;
      var init, b := t[..n], t[n];
      assert DistinctKeys(g, init);
      ContentsSize(g, init);
      if Ordinary(g, b.key) {
        ContentsKeys(g, init, b.key);
        assert b.key !in Contents(g, init);
      }
    }
  }

  /** Two tables with the same bindings have the same contents. */
  lemma SameBindings<K(!new), V>(g: Keying<K>, t: Table<K, V>, m: map<K, V>)
    requires DistinctKeys(g, t)
    requires forall p: nat :: p < |t| && Ordinary(g, t[p].key) ==> t[p].key in m && m[t[p].key] == t[p].value
    requires forall k :: k in m ==> Ordinary(g, k) && exists p: nat :: p < |t| && t[p].key == k
    ensures Contents(g, t) == m
  {
    var c := Contents(g, t);
    forall k ensures k in c <==> k in m {
      ContentsKeys(g, t, k);
    }
    assert c.Keys == m.Keys;
    forall k | k in m ensures c[k] == m[k] {
      var p: nat :| p < |t| && t[p].key == k;
      ContentsAt(g, t, p);
    }
  }

  lemma SoundTable<K, V>(g: Keying<K>, t: Table<K, V>)
    requires Sound(g, t)
    ensures DistinctKeys(g, t) && IsPow2(|t|)
  {
  }

  /** The contents of a longer prefix: one more binding if the next bucket is live, and a new one. */
  lemma PrefixContents<K, V>(g: Keying<K>, t: Table<K, V>, i: nat)
    requires DistinctKeys(g, t) && i < |t|
    ensures Contents(g, t[..i + 1])
         == if Ordinary(g, t[i].key) then Contents(g, t[..i])[t[i].key := t[i].value] else Contents(g, t[..i])
    ensures Ordinary(g, t[i].key) ==> t[i].key !in Contents(g, t[..i])
    ensures |Contents(g, t[..i])| <= |Contents(g, t)|
  {
    assert t[..i + 1][..i] == t[..i];
    ContentsKeys(g, t[..i], t[i].key);
    PrefixSmaller(g, t, i);
  }

  lemma {:induction false} PrefixSmaller<K, V>(g: Keying<K>, t: Table<K, V>, i: nat)
    requires i <= |t|
    ensures |Contents(g, t[..i])| <= |Contents(g, t)|
    decreases |t|
  {
    var n := |t| - 1;
    if i <= n {
      PrefixSmaller(g, t[..n], i);
      assert t[..n][..i] == t[..i];
    } else {
      assert t[..i] == t;
    }
  }

  // ---- Changing one bucket ----

  lemma {:induction false} OccupiedUpdate<K, V>(g: Keying<K>, t: Table<K, V>, p: nat, b: Bucket<K, V>)
    requires p < |t|
    ensures Occupied(g, t[p := b]) + (if t[p].key == g.empty then 0 else 1)
         == Occupied(g, t) + if b.key == g.empty then 0 else 1
    decreases |t|
  {
    var n := |t| - 1;
    if p < n {
      OccupiedUpdate(g, t[..n], p, b);
      assert t[p := b][..n] == t[..n][p := b];
    } else {
      assert t[p := b][..n] == t[..n];
    }
  }

  lemma {:induction false} TombsUpdate<K, V>(g: Keying<K>, t: Table<K, V>, p: nat, b: Bucket<K, V>)
    requires p < |t|
    ensures Tombs(g, t[p := b]) + (if t[p].key == g.deleted then 1 else 0)
         == Tombs(g, t) + if b.key == g.deleted then 1 else 0
    decreases |t|
  {
    var n := |t| - 1;
    if p < n {
      TombsUpdate(g, t[..n], p, b);
      assert t[p := b][..n] == t[..n][p := b];
    } else {
      assert t[p := b][..n] == t[..n];
    }
  }

  /** A bucket that is not emptied leaves every path as it was. */
  lemma PathsKept<K(!new), V>(g: Keying<K>, t: Table<K, V>, p: nat, b: Bucket<K, V>)
    requires p < |t| && b.key != g.empty && |t| > 0
    ensures forall k, q: nat :: Reachable(g, t, k, q) ==> Reachable(g, t[p := b], k, q)
  {
    hide Probe;
    var t' := t[p := b];
    forall k, q: nat | Reachable(g, t, k, q) ensures Reachable(g, t', k, q) {
      var i: nat :| Leads(g, t, k, q, i);
      assert Leads(g, t', k, q, i);
    }
  }

  /** Filling a free bucket on its path with a key that is not in the table adds one binding. */
  lemma Fill<K(!new), V>(g: Keying<K>, t: Table<K, V>, p: nat, k: K, v: V)
    requires Sound(g, t) && p < |t| && !Ordinary(g, t[p].key)
    requires Ordinary(g, k) && k !in Contents(g, t) && Reachable(g, t, k, p)
    ensures Sound(g, t[p := Bucket(k, v)])
    ensures Contents(g, t[p := Bucket(k, v)]) == Contents(g, t)[k := v]
    ensures Occupied(g, t[p := Bucket(k, v)]) == Occupied(g, t) + if t[p].key == g.empty then 1 else 0
    ensures Tombs(g, t[p := Bucket(k, v)]) == Tombs(g, t) - if t[p].key == g.deleted then 1 else 0
  {
    hide Reachable, IsPow2, Contents;
    var b := Bucket(k, v);
    var t' := t[p := b];
    OccupiedUpdate(g, t, p, b);
    TombsUpdate(g, t, p, b);
    PathsKept(g, t, p, b);
    ContentsKeys(g, t, k);
    var m := Contents(g, t)[k := v];
    forall q: nat | q < |t| && Ordinary(g, t[q].key)
      ensures t[q].key in m && m[t[q].key] == t[q].value
    {
      ContentsAt(g, t, q);
    }
    forall l | l in m ensures Ordinary(g, l) && exists q: nat :: q < |t'| && t'[q].key == l {
      if l == k {
        assert t'[p].key == l;
      } else {
        ContentsKeys(g, t, l);
        var q: nat :| q < |t| && t[q].key == l;
        assert t'[q].key == l;
      }
    }
    SameBindings(g, t', m);
  }

  /** Putting a tombstone over a key removes exactly its binding. */
  lemma Bury<K(!new), V>(g: Keying<K>, t: Table<K, V>, p: nat, v: V)
    requires Sound(g, t) && p < |t| && Ordinary(g, t[p].key)
    ensures Sound(g, t[p := Bucket(g.deleted, v)])
    ensures Contents(g, t[p := Bucket(g.deleted, v)]) == Contents(g, t) - {t[p].key}
    ensures Occupied(g, t[p := Bucket(g.deleted, v)]) == Occupied(g, t)
    ensures Tombs(g, t[p := Bucket(g.deleted, v)]) == Tombs(g, t) + 1
  {
    hide Reachable, IsPow2, Contents;
    var b := Bucket(g.deleted, v);
    var t', k := t[p := b], t[p].key;
    OccupiedUpdate(g, t, p, b);
    TombsUpdate(g, t, p, b);
    PathsKept(g, t, p, b);
    var m := Contents(g, t) - {k};
    forall q: nat | q < |t'| && Ordinary(g, t'[q].key)
      ensures t'[q].key in m && m[t'[q].key] == t'[q].value
    {
      assert t[q] == t'[q];
      ContentsAt(g, t, q);
    }
    forall l | l in m ensures Ordinary(g, l) && exists q: nat :: q < |t'| && t'[q].key == l {
      ContentsKeys(g, t, l);
      var q: nat :| q < |t| && t[q].key == l;
      assert t'[q].key == l;
    }
    SameBindings(g, t', m);
  }

  // ---- Probing ----

  lemma {:induction false} SomeEmpty<K, V>(g: Keying<K>, t: Table<K, V>) returns (p: nat)
    requires Occupied(g, t) < |t|
    ensures p < |t| && t[p].key == g.empty
    decreases |t|
  {
    p := |t| - 1;
    if t[p].key != g.empty {
      p := SomeEmpty(g, t[..p]);
    }
  }

  /** A probe loop that has only met occupied buckets has made fewer probes than there are buckets. */
  lemma ProbesEnd<K, V>(g: Keying<K>, t: Table<K, V>, h: nat, n: nat)
    requires IsPow2(|t|) && Occupied(g, t) < |t|
    requires forall j: nat :: j < n ==> t[Probe(h, j, |t|)].key != g.empty
    ensures n < |t|
  {
    hide IsPow2, Probe;
    var p := SomeEmpty(g, t);
    ProbesCover(h, p, |t|);
    var i: nat :| i < |t| && Probe(h, i, |t|) == p;
  }

  /** Probing for a key that meets an empty bucket before the key shows that the key is absent. */
  lemma AbsentAtEmpty<K, V>(g: Keying<K>, t: Table<K, V>, k: K, n: nat)
    requires Sound(g, t) && n < |t| && t[Probe(g.hash(k), n, |t|)].key == g.empty
    requires forall j: nat ::
      j < n && Ordinary(g, t[Probe(g.hash(k), j, |t|)].key) ==> t[Probe(g.hash(k), j, |t|)].key != k
    ensures k !in Contents(g, t)
  {
    hide IsPow2, Probe, DistinctKeys, Contents;
    ContentsKeys(g, t, k);
  }

  /** The first bucket on the path of `k` that can take it: a tombstone or an empty bucket. */
  ghost predicate FirstFree<K, V>(g: Keying<K>, t: Table<K, V>, k: K, p: nat) {
    && p < |t|
    && !Ordinary(g, t[p].key)
    && exists i: nat :: Leads(g, t, k, p, i) && AllOrdinary(g, t, k, i)
  }

  lemma FreeIsReachable<K, V>(g: Keying<K>, t: Table<K, V>, k: K, p: nat)
    requires FirstFree(g, t, k, p)
    ensures Reachable(g, t, k, p)
  {
  }

  ghost predicate AllOrdinary<K, V>(g: Keying<K>, t: Table<K, V>, k: K, n: nat) {
    |t| > 0 && forall j: nat :: j < n ==> Ordinary(g, t[Probe(g.hash(k), j, |t|)].key)
  }

  lemma {:induction false} TombCounted<K, V>(g: Keying<K>, t: Table<K, V>, p: nat)
    requires p < |t| && t[p].key == g.deleted
    ensures Tombs(g, t) > 0
    decreases |t|
  {
    if p < |t| - 1 {
      TombCounted(g, t[..|t| - 1], p);
    }
  }

  // ---- The empty table ----

  lemma {:induction false} AllEmpty<K, V>(g: Keying<K>, t: Table<K, V>)
    requires forall p: nat :: p < |t| ==> t[p].key == g.empty
    ensures Contents(g, t) == map[] && Occupied(g, t) == 0
    ensures g.empty != g.deleted ==> Tombs(g, t) == 0
    decreases |t|
  {
    if t != [] {
      AllEmpty(g, t[..|t| - 1]);
    }
  }

  lemma {:induction false} NoneOccupied<K, V>(g: Keying<K>, t: Table<K, V>)
    requires Occupied(g, t) == 0
    ensures forall p: nat :: p < |t| ==> t[p].key == g.empty
    decreases |t|
  {
    if t != [] {
      NoneOccupied(g, t[..|t| - 1]);
    }
  }

  // ---- Iteration ----

  /** The bindings in bucket order, as the table's iterator gives them. */
  function Items<K(==), V>(g: Keying<K>, t: Table<K, V>): seq<(K, V)> {
    if t == [] then [] else
      var b := t[|t| - 1];
      Items(g, t[..|t| - 1]) + if Ordinary(g, b.key) then [(b.key, b.value)] else []
  }

  ghost predicate Lists<K, V>(items: seq<(K, V)>, m: map<K, V>) {
    && |items| == |m|
    && (forall i :: 0 <= i < |items| ==> items[i].0 in m && m[items[i].0] == items[i].1)
    && (forall i, j :: 0 <= i < j < |items| ==> items[i].0 != items[j].0)
  }

  /** Iteration visits every binding of the map exactly once. */
  lemma {:induction false} ItemsList<K, V>(g: Keying<K>, t: Table<K, V>)
    requires DistinctKeys(g, t)
    ensures Lists(Items(g, t), Contents(g, t))
    decreases |t|
  {
    if t != [] {
      var n := |t| - 1;
      var init, b := t[..n], t[n];
      assert DistinctKeys(g, init);
      ItemsList(g, init);
      if Ordinary(g, b.key) {
        ContentsKeys(g, init, b.key);
        assert b.key !in Contents(g, init);
      }
    }
  }
}
