/** The tag array with one replacement object per set, and the runner that drives it. */
module CacheObjects {
  import opened CacheGeometry
  import opened Operations
  import opened Options
  import opened Recency
  import opened Replacement
  import opened TagArray

  class SimpleCacheTagArray {
    const geometry: Geometry
    const ways: nat
    const replacement: seq<LRU>
    var tags: seq<seq<Tag>>
    var lookupHelper: seq<map<Addr, nat>>

    ghost predicate Valid()
      reads this, replacement
    {
      && geometry.sets == |replacement| == |tags| == |lookupHelper| > 0
      && (forall i, j :: 0 <= i < j < |replacement| ==> replacement[i] != replacement[j])
      && (forall i :: 0 <= i < |replacement| ==> Shaped(SetAt(i)))
    }

    ghost function SetAt(i: nat): CacheSet
      requires i < |replacement| && |tags| == |lookupHelper| == |replacement|
      reads this, replacement
    {
      CacheSet(replacement[i].list, tags[i], lookupHelper[i])
    }

    ghost predicate Shows(c: Cache)
      requires Valid()
      reads this, replacement
    {
      |c| == |replacement| && forall i :: 0 <= i < |c| ==> c[i] == SetAt(i)
    }

    constructor (geometry: Geometry, ways: nat)
      requires geometry.sets > 0 && ways > 0
      ensures Valid() && Shows(EmptyCache(geometry, ways))
      ensures this.geometry == geometry && this.ways == ways
      ensures fresh(replacement)
    {
      var policies: seq<LRU> := [];
      for i := 0 to geometry.sets
        invariant |policies| == i && fresh(policies)
        invariant forall k, j :: 0 <= k < j < |policies| ==> policies[k] != policies[j]
        invariant forall k :: 0 <= k < |policies| ==> policies[k].list == InitialOrder(ways)
      {
        var policy := new LRU(ways);
        policies := policies + [policy];
      }
      this.geometry, this.ways, replacement := geometry, ways, policies;
      tags := seq(geometry.sets, i => seq(ways, j => Tag(false, 0)));
      lookupHelper := seq(geometry.sets, i => map[]);
    }

    /** A lookup that leaves the replacement order alone. */
    method ReadNoTouch(addr: Addr) returns (way: Option<nat>)
      requires Valid()
      ensures way == Find(SetAt(geometry.SetOf(addr)), geometry.TagOf(addr))
    {
      var index, tag := geometry.SetOf(addr), geometry.TagOf(addr);
      way := if tag in lookupHelper[index] then Some(lookupHelper[index][tag]) else None;
    }

    method ReadTag(addr: Addr, ghost c: Cache) returns (way: Option<nat>)
      requires Valid() && Shows(c)
      modifies replacement
      ensures Valid() && way == Find(c[geometry.SetOf(addr)], geometry.TagOf(addr))
      ensures Shows(c[geometry.SetOf(addr) := Read(c[geometry.SetOf(addr)], geometry.TagOf(addr))])
    {
      hide MoveToFront;
      way := ReadNoTouch(addr);
      if way.Some? {
        var index := geometry.SetOf(addr);
        AccessShaped(c[index], geometry.TagOf(addr));
        replacement[index].Touch(way.value);
        assert SetAt(index) == Touch(c[index], way.value);
        assert forall i :: 0 <= i < |c| && i != index ==> SetAt(i) == c[i];
      }
    }

    /** Overwrites the way that the policy gives. */
    method WriteTag(addr: Addr, ghost c: Cache) returns (way: nat)
      requires Valid() && Shows(c)
      requires Storable(geometry.TagOf(addr))
      modifies this`tags, this`lookupHelper, replacement
      ensures Valid() && way == Victim(c[geometry.SetOf(addr)])
      ensures Shows(c[geometry.SetOf(addr) := Write(c[geometry.SetOf(addr)], geometry.TagOf(addr))])
    {
      hide MoveToFront;
      var tag, index := geometry.TagOf(addr), geometry.SetOf(addr);
      WriteShaped(c[index], tag);
      ghost var written := Write(c[index], tag);
      assert SetAt(index) == c[index];
      hide Shaped;
      way := replacement[index].Update();
      var entry := tags[index][way];
      var helper := lookupHelper[index];
      if entry.isValid {
        helper := helper - {entry.tag};
      }
      if tag !in helper {
        helper := helper[tag := way];
      }
      lookupHelper := lookupHelper[index := helper];
      tags := tags[index := tags[index][way := Tag(true, tag)]];
      assert SetAt(index) == written;
      hide Write;
      assert forall i :: 0 <= i < |c| && i != index ==> SetAt(i) == c[i];
    }
  }

  /** An access as the runner makes it: a counted lookup, and a write if that missed. */
  lemma AccessedBy(g: Geometry, c: Cache, addr: Addr)
    requires CacheShaped(g, c)
    ensures g.SetOf(addr) < |c|
    ensures Find(c[g.SetOf(addr)], g.TagOf(addr)).Some? <==> Hits(g, c, addr)
    ensures g.TagOf(addr) in c[g.SetOf(addr)].lookup <==> Hits(g, c, addr)
    ensures AccessCache(g, c, addr)
         == c[g.SetOf(addr) := if Hits(g, c, addr) then Read(c[g.SetOf(addr)], g.TagOf(addr))
                               else Write(c[g.SetOf(addr)], g.TagOf(addr))]
    ensures !Hits(g, c, addr) ==> Read(c[g.SetOf(addr)], g.TagOf(addr)) == c[g.SetOf(addr)]
  {
  }

  datatype Results = Results(accesses: nat, hits: nat, compulsoryMisses: nat)

  class CacheRunner {
    const cache: SimpleCacheTagArray
    var history: set<Addr>

    constructor (cache: SimpleCacheTagArray)
      ensures this.cache == cache && history == {}
    {
      this.cache := cache;
      history := {};
    }

    method AccountMiss(addr: Addr, results: Results, ghost c: Cache) returns (r: Results)
      requires cache.Valid() && cache.Shows(c) && Storable(cache.geometry.TagOf(addr))
      requires CacheShaped(cache.geometry, c) && !Hits(cache.geometry, c, addr)
      modifies this, cache, cache.replacement
      ensures cache.Valid() && cache.Shows(AccessCache(cache.geometry, c, addr))
      ensures history == old(history) + {addr}
      ensures |history| == |old(history)| + if addr in old(history) then 0 else 1
      ensures r == results.(compulsoryMisses := results.compulsoryMisses + if addr in old(history) then 0 else 1)
    {
      hide *;
      AccessedBy(cache.geometry, c, addr);
      var _ := cache.WriteTag(addr, c);
      r := results;
      if addr !in history {
        r := r.(compulsoryMisses := r.compulsoryMisses + 1);
        history := history + {addr};
      }
    }

    method AccountAccess(addr: Addr, results: Results, ghost c: Cache) returns (r: Results)
      requires cache.Valid() && cache.Shows(c) && Storable(cache.geometry.TagOf(addr))
      requires CacheShaped(cache.geometry, c)
      modifies this, cache, cache.replacement
      ensures cache.Valid() && cache.Shows(AccessCache(cache.geometry, c, addr))
      ensures r.accesses == results.accesses + 1
      ensures r.hits == results.hits + if Hits(cache.geometry, c, addr) then 1 else 0
      ensures history == old(history) + if Hits(cache.geometry, c, addr) then {} else {addr}
      ensures r.compulsoryMisses - results.compulsoryMisses == |history| - |old(history)|
    {
      var g := cache.geometry;
      hide *;
      AccessedBy(g, c, addr);
      r := results.(accesses := results.accesses + 1);
      var way := cache.ReadTag(addr, c);
      if way.Some? {
        r := r.(hits := r.hits + 1);
      } else {
        r := AccountMiss(addr, r, c);
      }
    }

    /** Runs a trace on an empty cache: the hits are those of the specification, and the compulsory
        misses are the distinct addresses that ever missed. */
    method Run(trace: seq<Addr>) returns (r: Results)
      requires cache.Valid() && cache.ways > 0 && cache.Shows(EmptyCache(cache.geometry, cache.ways))
      requires history == {} && forall a :: a in trace ==> Storable(cache.geometry.TagOf(a))
      modifies this, cache, cache.replacement
      ensures cache.Valid() && cache.Shows(RunCache(cache.geometry, cache.ways, trace))
      ensures r.accesses == |trace| && r.hits == CountHits(cache.geometry, cache.ways, trace)
      ensures r.compulsoryMisses == |Missed(cache.geometry, cache.ways, trace)|
    {
      hide Hits, AccessCache, EmptyCache, CacheShaped;
      var g, ways := cache.geometry, cache.ways;
      r := Results(0, 0, 0);
      for i := 0 to |trace|
        invariant cache.Valid() && cache.Shows(RunCache(g, ways, trace[..i]))
        invariant r.accesses == i && r.hits == CountHits(g, ways, trace[..i])
        invariant history == Missed(g, ways, trace[..i]) && r.compulsoryMisses == |history|
      {
        assert trace[..i + 1][..i] == trace[..i];
        r := AccountAccess(trace[i], r, RunCache(g, ways, trace[..i]));
      }
      assert trace[..|trace|] == trace;
    }
  }

  /** The addresses that missed during a trace. */
  ghost function Missed(g: Geometry, ways: nat, trace: seq<Addr>): set<Addr>
    requires g.sets > 0 && ways > 0
  {
    if trace == [] then {} else
      var n := |trace| - 1;
      Missed(g, ways, trace[..n]) + if Hits(g, RunCache(g, ways, trace[..n]), trace[n]) then {} else {trace[n]}
  }
}
