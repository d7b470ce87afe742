/** Sequences without duplicates that are reordered by use: the list of a least-recently-used
    policy, and the list of the distinct items of a history, latest use first. */
module Recency {

  ghost predicate NoDuplicates<T>(s: seq<T>) {
    forall i, j :: 0 <= i < j < |s| ==> s[i] != s[j]
  }

  function IndexOf<T(==)>(s: seq<T>, x: T): (i: nat)
    requires x in s
    ensures i < |s| && s[i] == x
    ensures forall j :: 0 <= j < i ==> s[j] != x
  {
    if s[0] == x then 0 else 1 + IndexOf(s[1..], x)
  }

  function Without<T>(s: seq<T>, i: nat): (r: seq<T>)
    requires i < |s|
    ensures |r| == |s| - 1
  {
    s[..i] + s[i + 1..]
  }

  /** The list with `x` first and the others behind it in their old order. */
  function MoveToFront<T(==)>(s: seq<T>, x: T): (r: seq<T>)
    ensures x in r && r[0] == x
  {
    [x] + if x in s then Without(s, IndexOf(s, x)) else s
  }

  function MoveToBack<T(==)>(s: seq<T>, x: T): seq<T> {
    (if x in s then Without(s, IndexOf(s, x)) else s) + [x]
  }

  lemma IndexUnique<T>(s: seq<T>, i: nat)
    requires NoDuplicates(s) && i < |s|
    ensures s[i] in s && IndexOf(s, s[i]) == i
  {
  }

  lemma FrontKept<T>(s: seq<T>, x: T)
    requires NoDuplicates(s)
    ensures NoDuplicates(MoveToFront(s, x))
    ensures forall y :: y in MoveToFront(s, x) <==> y == x || y in s
  {
    if x in s {
      hide IndexOf;
      WithoutKept(s, IndexOf(s, x));
    }
  }

  lemma WithoutKept<T>(s: seq<T>, i: nat)
    requires NoDuplicates(s) && i < |s|
    ensures NoDuplicates(Without(s, i))
    ensures forall y :: y in Without(s, i) <==> y in s && y != s[i]
  {
    assert s == s[..i] + [s[i]] + s[i + 1..];
  }

  lemma BackKept<T>(s: seq<T>, x: T)
    requires NoDuplicates(s) && x in s
    ensures NoDuplicates(MoveToBack(s, x))
    ensures forall y :: y in MoveToBack(s, x) <==> y in s
  {
    hide IndexOf;
    WithoutKept(s, IndexOf(s, x));
  }

  /** The distinct items of a history, the latest used first. */
  function Recent<T(==)>(h: seq<T>): seq<T> {
    if h == [] then [] else MoveToFront(Recent(h[..|h| - 1]), h[|h| - 1])
  }

  /** The last time an item was used; -1 for one that never was. */
  function LastUse<T(==)>(h: seq<T>, x: T): (t: int)
    ensures -1 <= t < |h|
    ensures t >= 0 ==> h[t] == x
    ensures forall u :: t < u < |h| ==> h[u] != x
  {
    if h == [] then -1
    else if h[|h| - 1] == x then |h| - 1
    else LastUse(h[..|h| - 1], x)
  }

  lemma {:induction false} RecentItems<T>(h: seq<T>)
    ensures NoDuplicates(Recent(h))
    ensures forall x :: x in Recent(h) <==> x in h
  {
    hide MoveToFront, NoDuplicates;
    if h != [] {
      var n := |h| - 1;
      RecentItems(h[..n]);
      FrontKept(Recent(h[..n]), h[n]);
      assert h == h[..n] + [h[n]];
    } else {
      NoneTwice<T>();
    }
  }

  lemma NoneTwice<T>()
    ensures NoDuplicates<T>([])
  {
  }

  /** `Recent` lists the items by falling time of last use. */
  lemma {:induction false} RecentByUse<T>(h: seq<T>)
    ensures forall i, j :: 0 <= i < j < |Recent(h)| ==> LastUse(h, Recent(h)[i]) > LastUse(h, Recent(h)[j])
  {
    hide MoveToFront, NoDuplicates, Recent;
    if h == [] {
      assert Recent(h) == [] by { RecentStep(h); }
    } else {
      var n := |h| - 1;
      var before, x := Recent(h[..n]), h[n];
      var after := Recent(h);
      RecentByUse(h[..n]);
      RecentItems(h[..n]);
      RecentStep(h);
      var k := FrontIndices(before, x);
      forall i, j | 0 <= i < j < |after| ensures LastUse(h, after[i]) > LastUse(h, after[j]) {
        var j' := if j <= k then j - 1 else j;
        assert after[j] == before[j'] != x;
        if i > 0 {
          var i' := if i <= k then i - 1 else i;
          assert after[i] == before[i'] != x;
          assert i' < j';
        }
      }
    }
  }

  lemma RecentStep<T>(h: seq<T>)
    ensures Recent(h) == if h == [] then [] else MoveToFront(Recent(h[..|h| - 1]), h[|h| - 1])
  {
  }

  /** What stands where after a move to the front. */
  lemma FrontIndices<T>(s: seq<T>, x: T) returns (k: nat)
    requires NoDuplicates(s)
    ensures k <= |s| && k == if x in s then IndexOf(s, x) else |s|
    ensures |MoveToFront(s, x)| == if x in s then |s| else |s| + 1
    ensures MoveToFront(s, x)[0] == x
    ensures forall i :: 0 < i < |MoveToFront(s, x)| ==>
                          MoveToFront(s, x)[i] == s[if i <= k then i - 1 else i] != x
  {
    if x in s {
      k := IndexOf(s, x);
      WithoutAt(s, k);
      assert MoveToFront(s, x) == [x] + Without(s, k);
    } else {
      k := |s|;
      assert MoveToFront(s, x) == [x] + s;
    }
  }

  lemma WithoutAt<T>(s: seq<T>, k: nat)
    requires k < |s|
    ensures forall i :: 0 <= i < |s| - 1 ==> Without(s, k)[i] == s[if i < k then i else i + 1]
  {
  }

  function Take<T>(s: seq<T>, n: nat): (r: seq<T>)
    ensures |r| == if n < |s| then n else |s|
    ensures forall i :: 0 <= i < |r| ==> r[i] == s[i]
  {
    if n < |s| then s[..n] else s
  }

  lemma TakeHas<T>(s: seq<T>, n: nat, i: nat)
    requires i < |s|
    ensures i < n ==> s[i] in Take(s, n)
  {
    assert i < n ==> Take(s, n)[i] == s[i];
  }

  /** Of a history's items, the first `n` of `Recent` are the `n` used last. */
  lemma TakenAreLatest<T>(h: seq<T>, n: nat, x: T, y: T)
    requires x in Take(Recent(h), n) && y in h && y !in Take(Recent(h), n)
    ensures LastUse(h, x) > LastUse(h, y)
  {
    RecentByUse(h);
    RecentItems(h);
    var r := Recent(h);
    var i, j := IndexOf(r, x), IndexOf(r, y);
    assert i < n by {
      var t := Take(r, n);
      var m := IndexOf(t, x);
      assert r[m] == x;
    }
    TakeHas(r, n, j);
  }

  /** Using an item within reach moves it to the front; using another pushes the last one out. */
  lemma TakeMoved<T>(s: seq<T>, x: T, n: nat)
    requires NoDuplicates(s) && n > 0
    ensures Take(MoveToFront(s, x), n)
         == if x in Take(s, n) then MoveToFront(Take(s, n), x) else Take([x] + Take(s, n), n)
  {
    hide MoveToFront;
    var t := Take(s, n);
    var k := FrontIndices(s, x);
    var l := FrontIndices(t, x);
    if x in t {
      assert s[l] == x;
      IndexUnique(s, l);
    } else {
      if x in s {
        TakeHas(s, n, k);
      }
    }
    var left := Take(MoveToFront(s, x), n);
    var right := if x in t then MoveToFront(t, x) else Take([x] + t, n);
    assert |left| == |right|;
    assert forall i :: 0 <= i < |left| ==> left[i] == right[i];
  }
}
