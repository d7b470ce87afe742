/** The sets of a tag array under least-recently-used replacement, as values. */
module TagArray {
  import opened CacheGeometry
  import opened Operations
  import opened Options
  import opened Recency

  datatype Tag = Tag(isValid: bool, tag: Addr)

  /** One set: its ways ordered from the last used to the first to be replaced, what is stored in
      each way, and the index from tags to ways. */
  datatype CacheSet = CacheSet(order: seq<nat>, tags: seq<Tag>, lookup: map<Addr, nat>)

  const IMPOSSIBLE_KEY: Addr := 0x7FFF_FFFF

  /** Tags that are not reserved by the lookup index. */
  predicate Storable(tag: Addr) {
    tag != IMPOSSIBLE_KEY && tag != IMPOSSIBLE_KEY - 1
  }

  function InitialOrder(ways: nat): (order: seq<nat>)
    ensures |order| == ways && forall i :: 0 <= i < ways ==> order[i] == ways - 1 - i
  {
    seq(ways, i requires 0 <= i < ways => ways - 1 - i)
  }

  function EmptySet(ways: nat): CacheSet {
    CacheSet(InitialOrder(ways), seq(ways, i => Tag(false, 0)), map[])
  }

  ghost predicate Shaped(s: CacheSet) {
    && |s.order| == |s.tags| > 0
    && (forall i :: 0 <= i < |s.order| ==> s.order[i] < |s.tags|)
    && (forall t :: t in s.lookup ==> s.lookup[t] < |s.tags| && s.lookup[t] in s.order)
  }

  function Find(s: CacheSet, tag: Addr): Option<nat> {
    if tag in s.lookup then Some(s.lookup[tag]) else None
  }

  function Touch(s: CacheSet, way: nat): CacheSet {
    s.(order := MoveToFront(s.order, way))
  }

  /** A lookup that counts as a use. */
  function Read(s: CacheSet, tag: Addr): CacheSet {
    if tag in s.lookup then Touch(s, s.lookup[tag]) else s
  }

  function Victim(s: CacheSet): nat
    requires Shaped(s)
  {
    s.order[|s.order| - 1]
  }

  /** Replaces the tag of the last way; the index forgets the old tag and learns the new one. */
  function Write(s: CacheSet, tag: Addr): CacheSet
    requires Shaped(s)
  {
    var way := Victim(s);
    var evicted := s.tags[way];
    var kept := if evicted.isValid then s.lookup - {evicted.tag} else s.lookup;
    CacheSet(MoveToFront(s.order, way), s.tags[way := Tag(true, tag)],
             if tag in kept then kept else kept[tag := way])
  }

  lemma WriteForm(s: CacheSet, tag: Addr)
    requires Shaped(s) && tag !in s.lookup
    ensures Write(s, tag) == CacheSet(
      MoveToFront(s.order, Victim(s)), s.tags[Victim(s) := Tag(true, tag)],
      (if s.tags[Victim(s)].isValid then s.lookup - {s.tags[Victim(s)].tag} else s.lookup)[tag := Victim(s)])
  {
  }

  /** The discipline of the cache runner: look up, and write only after a miss. */
  function Access(s: CacheSet, tag: Addr): CacheSet
    requires Shaped(s)
  {
    if tag in s.lookup then Read(s, tag) else Write(s, tag)
  }

  ghost predicate Ordered(order: seq<nat>, ways: nat) {
    |order| == ways > 0 && NoDuplicates(order) && forall i :: 0 <= i < ways ==> order[i] < ways
  }

  /** The first ways of the order store the tags of the stack, the others nothing. */
  ghost predicate Stored(order: seq<nat>, tags: seq<Tag>, stack: seq<Addr>)
    requires Ordered(order, |tags|)
  {
    && |stack| <= |order|
    && NoDuplicates(stack)
    && (forall i :: 0 <= i < |stack| ==> tags[order[i]] == Tag(true, stack[i]))
    && (forall i :: |stack| <= i < |order| ==> !tags[order[i]].isValid)
  }

  /** The index is the inverse of what is stored. */
  ghost predicate Indexed(order: seq<nat>, lookup: map<Addr, nat>, stack: seq<Addr>) {
    && |stack| <= |order|
    && (forall t :: t in lookup <==> t in stack)
    && (forall i :: 0 <= i < |stack| ==> lookup[stack[i]] == order[i])
  }

  /** The set holds exactly the tags of `stack`, the last used first, and its index is the inverse of
      its tag array. */
  ghost predicate Holds(s: CacheSet, stack: seq<Addr>, ways: nat) {
    && |s.tags| == ways
    && Ordered(s.order, ways)
    && Stored(s.order, s.tags, stack)
    && Indexed(s.order, s.lookup, stack)
  }

  lemma EmptyHoldsNothing(ways: nat)
    requires ways > 0
    ensures Holds(EmptySet(ways), [], ways)
  {
  }

  lemma HoldsShaped(s: CacheSet, stack: seq<Addr>, ways: nat)
    requires Holds(s, stack, ways)
    ensures Shaped(s)
  {
    forall t | t in s.lookup ensures s.lookup[t] < |s.tags| && s.lookup[t] in s.order {
      var i := IndexOf(stack, t);
      assert s.lookup[stack[i]] == s.order[i];
    }
  }

  /** Moving a way to the front keeps the order a permutation; its items move as listed. */
  lemma OrderMoved(order: seq<nat>, ways: nat, k: nat)
    requires Ordered(order, ways) && k < ways
    ensures Ordered(MoveToFront(order, order[k]), ways)
    ensures forall i :: 0 < i < ways ==>
              MoveToFront(order, order[k])[i] == order[if i <= k then i - 1 else i] != order[k]
  {
    hide MoveToFront;
    IndexUnique(order, k);
    var _ := FrontIndices(order, order[k]);
    FrontKept(order, order[k]);
    hide NoDuplicates;
    var moved := MoveToFront(order, order[k]);
    forall i | 0 <= i < ways ensures moved[i] < ways {
      assert moved[i] == order[if i == 0 then k else if i <= k then i - 1 else i];
    }
  }

  lemma HitKeeps(s: CacheSet, stack: seq<Addr>, ways: nat, tag: Addr)
    requires Holds(s, stack, ways) && tag in stack
    ensures Holds(Read(s, tag), MoveToFront(stack, tag), ways)
  {
    hide MoveToFront;
    var k := FrontIndices(stack, tag);
    assert s.lookup[stack[k]] == s.order[k];
    OrderMoved(s.order, ways, k);
    FrontKept(stack, tag);
    assert Read(s, tag) == s.(order := MoveToFront(s.order, s.order[k]));
    StoredMoved(s.order, s.tags, stack, k);
    IndexedMoved(s.order, s.lookup, stack, k);
  }

  lemma StoredMoved(order: seq<nat>, tags: seq<Tag>, stack: seq<Addr>, k: nat)
    requires Ordered(order, |tags|) && Stored(order, tags, stack) && k < |stack|
    ensures Ordered(MoveToFront(order, order[k]), |tags|)
    ensures Stored(MoveToFront(order, order[k]), tags, MoveToFront(stack, stack[k]))
  {
    hide MoveToFront;
    IndexUnique(stack, k);
    OrderMoved(order, |tags|, k);
    FrontKept(stack, stack[k]);
    var _ := FrontIndices(stack, stack[k]);
    hide NoDuplicates;
  }

  lemma IndexedMoved(order: seq<nat>, lookup: map<Addr, nat>, stack: seq<Addr>, k: nat)
    requires Ordered(order, |order|) && NoDuplicates(stack) && Indexed(order, lookup, stack) && k < |stack|
    ensures Indexed(MoveToFront(order, order[k]), lookup, MoveToFront(stack, stack[k]))
  {
    hide MoveToFront;
    IndexUnique(stack, k);
    OrderMoved(order, |order|, k);
    FrontKept(stack, stack[k]);
    var _ := FrontIndices(stack, stack[k]);
    hide NoDuplicates;
  }

  lemma MissKeeps(s: CacheSet, stack: seq<Addr>, ways: nat, tag: Addr)
    requires Holds(s, stack, ways) && Shaped(s) && tag !in stack
    ensures Holds(Write(s, tag), Take([tag] + stack, ways), ways)
  {
    hide MoveToFront, Stored, Take;
    OrderMoved(s.order, ways, ways - 1);
    StoredPushed(s.order, s.tags, stack, tag);
    IndexedPushed(s, stack, ways, tag);
  }

  lemma StoredPushed(order: seq<nat>, tags: seq<Tag>, stack: seq<Addr>, tag: Addr)
    requires Ordered(order, |tags|) && Stored(order, tags, stack) && tag !in stack
    ensures Ordered(MoveToFront(order, order[|order| - 1]), |tags|)
    ensures Stored(MoveToFront(order, order[|order| - 1]), tags[order[|order| - 1] := Tag(true, tag)],
                   Take([tag] + stack, |tags|))
  {
    hide MoveToFront, NoDuplicates, Ordered, Take;
    WaysBounded(order, |tags|);
    var n := |order| - 1;
    OrderMoved(order, |tags|, n);
    var stack' := Take([tag] + stack, |tags|);
    PushedDistinct(stack, tag, |tags|);
    WaysBounded(MoveToFront(order, order[n]), |tags|);
    var order', tags' := MoveToFront(order, order[n]), tags[order[n] := Tag(true, tag)];
    assert forall i :: 0 < i <= n ==> tags'[order'[i]] == tags[order[i - 1]];
    assert forall i :: 0 < i < |stack'| ==> stack'[i] == stack[i - 1];
  }

  lemma WaysBounded(order: seq<nat>, ways: nat)
    requires Ordered(order, ways)
    ensures |order| == ways > 0 && forall i :: 0 <= i < ways ==> order[i] < ways
  {
  }

  lemma PushedDistinct(stack: seq<Addr>, tag: Addr, ways: nat)
    requires NoDuplicates(stack) && tag !in stack
    ensures NoDuplicates(Take([tag] + stack, ways))
  {
  }

  /** What the index and the stack keep when a full set gives up its last way. */
  function Kept(stack: seq<Addr>, ways: nat): seq<Addr>
    requires ways > 0
  {
    if |stack| >= ways then stack[..ways - 1] else stack
  }

  lemma KeptLookup(s: CacheSet, stack: seq<Addr>, ways: nat, tag: Addr) returns (kept: map<Addr, nat>)
    requires Holds(s, stack, ways) && Shaped(s) && tag !in stack
    ensures Write(s, tag).lookup == kept[tag := Victim(s)]
    ensures forall t :: t in kept <==> t in Kept(stack, ways)
    ensures forall t :: t in kept ==> t in s.lookup && kept[t] == s.lookup[t]
  {
    hide MoveToFront;
    WriteForm(s, tag);
    var way := Victim(s);
    if |stack| == ways {
      assert s.tags[way] == Tag(true, stack[ways - 1]);
      assert stack == stack[..ways - 1] + [stack[ways - 1]];
      assert stack[ways - 1] !in stack[..ways - 1];
      kept := s.lookup - {stack[ways - 1]};
    } else {
      assert !s.tags[way].isValid;
      kept := s.lookup;
    }
  }

  lemma TakePushed(stack: seq<Addr>, ways: nat, tag: Addr)
    requires ways > 0 && |stack| <= ways
    ensures Take([tag] + stack, ways) == [tag] + Kept(stack, ways)
  {
  }

  lemma PushedIndexed(order: seq<nat>, order': seq<nat>, kept: map<Addr, nat>, rest: seq<Addr>, tag: Addr, way: nat)
    requires |rest| < |order'| == |order| && tag !in rest && forall t :: t in kept <==> t in rest
    requires forall i :: 0 <= i < |rest| ==> kept[rest[i]] == order[i]
    requires order'[0] == way && forall i :: 0 < i < |order'| ==> order'[i] == order[i - 1]
    ensures Indexed(order', kept[tag := way], [tag] + rest)
  {
  }

  lemma IndexedPushed(s: CacheSet, stack: seq<Addr>, ways: nat, tag: Addr)
    requires Holds(s, stack, ways) && Shaped(s) && tag !in stack
    ensures Indexed(Write(s, tag).order, Write(s, tag).lookup, Take([tag] + stack, ways))
  {
    hide MoveToFront, NoDuplicates, Take;
    var kept := KeptLookup(s, stack, ways, tag);
    WriteForm(s, tag);
    hide Write;
    OrderMoved(s.order, ways, ways - 1);
    TakePushed(stack, ways, tag);
    PushedIndexed(s.order, Write(s, tag).order, kept, Kept(stack, ways), tag, Victim(s));
  }

  // ---- Histories of one set ----

  function RunSet(ways: nat, h: seq<Addr>): CacheSet
    requires ways > 0
    ensures Shaped(RunSet(ways, h))
  {
    if h == [] then
      EmptyHoldsNothing(ways);
      HoldsShaped(EmptySet(ways), [], ways);
      EmptySet(ways)
    else
      var s := RunSet(ways, h[..|h| - 1]);
      AccessShaped(s, h[|h| - 1]);
      Access(s, h[|h| - 1])
  }

  lemma AccessShaped(s: CacheSet, tag: Addr)
    requires Shaped(s)
    ensures Shaped(Access(s, tag))
  {
    hide MoveToFront;
    if tag in s.lookup {
      MovedMembers(s.order, s.lookup[tag]);
    } else {
      WriteShaped(s, tag);
    }
  }

  /** Any write keeps the shape, even one of a tag that is held already. */
  lemma WriteShaped(s: CacheSet, tag: Addr)
    requires Shaped(s)
    ensures Shaped(Write(s, tag))
  {
    hide MoveToFront;
    assert Victim(s) in s.order;
    MovedMembers(s.order, Victim(s));
  }

  lemma MovedMembers(order: seq<nat>, way: nat)
    requires way in order
    ensures |MoveToFront(order, way)| == |order|
    ensures forall w :: w in MoveToFront(order, way) <==> w in order
    ensures forall i :: 0 <= i < |order| ==> MoveToFront(order, way)[i] in order
  {
    var i := IndexOf(order, way);
    assert order == order[..i] + [way] + order[i + 1..];
  }

  /** After any history a set holds exactly the `ways` most recently accessed distinct tags. */
  lemma {:induction false} LruHoldsRecent(ways: nat, h: seq<Addr>)
    requires ways > 0
    ensures Holds(RunSet(ways, h), Take(Recent(h), ways), ways)
  {
    hide Holds, Take, MoveToFront, EmptySet;
    if h == [] {
      EmptyHoldsNothing(ways);
      assert Recent(h) == [] && Take<Addr>([], ways) == [];
    } else {
      var n := |h| - 1;
      var s, r, tag := RunSet(ways, h[..n]), Recent(h[..n]), h[n];
      LruHoldsRecent(ways, h[..n]);
      RecentItems(h[..n]);
      TakeMoved(r, tag, ways);
      LookupOfHeld(s, Take(r, ways), ways, tag);
      if tag in Take(r, ways) {
        HitKeeps(s, Take(r, ways), ways, tag);
      } else {
        MissKeeps(s, Take(r, ways), ways, tag);
      }
    }
  }

  lemma LookupOfHeld(s: CacheSet, stack: seq<Addr>, ways: nat, tag: Addr)
    requires Holds(s, stack, ways)
    ensures tag in s.lookup <==> tag in stack
  {
  }

  /** A set with more ways hits whenever one with fewer ways does. */
  lemma MoreWaysHitMore(ways: nat, more: nat, h: seq<Addr>, tag: Addr)
    requires 0 < ways <= more
    ensures tag in RunSet(ways, h).lookup ==> tag in RunSet(more, h).lookup
  {
    hide Holds, Recent, RunSet;
    LruHoldsRecent(ways, h);
    LruHoldsRecent(more, h);
    LookupOfHeld(RunSet(ways, h), Take(Recent(h), ways), ways, tag);
    LookupOfHeld(RunSet(more, h), Take(Recent(h), more), more, tag);
    if tag in Take(Recent(h), ways) {
      var i := IndexOf(Take(Recent(h), ways), tag);
      assert Take(Recent(h), more)[i] == tag;
    }
  }

  /** What a set holds was used after everything else in its history. */
  lemma HeldAreLatest(ways: nat, h: seq<Addr>, held: Addr, other: Addr)
    requires ways > 0 && held in RunSet(ways, h).lookup
    requires other in h && other !in RunSet(ways, h).lookup
    ensures LastUse(h, held) > LastUse(h, other)
  {
    hide Holds, Recent, RunSet, LastUse;
    LruHoldsRecent(ways, h);
    LookupOfHeld(RunSet(ways, h), Take(Recent(h), ways), ways, held);
    LookupOfHeld(RunSet(ways, h), Take(Recent(h), ways), ways, other);
    TakenAreLatest(h, ways, held, other);
  }

  // ---- The whole cache ----

  type Cache = seq<CacheSet>

  function EmptyCache(g: Geometry, ways: nat): Cache {
    seq(g.sets, i => EmptySet(ways))
  }

  ghost predicate CacheShaped(g: Geometry, c: Cache) {
    |c| == g.sets > 0 && forall i :: 0 <= i < |c| ==> Shaped(c[i])
  }

  function AccessCache(g: Geometry, c: Cache, addr: Addr): (r: Cache)
    requires CacheShaped(g, c)
    ensures CacheShaped(g, r)
  {
    var i := g.SetOf(addr);
    AccessShaped(c[i], g.TagOf(addr));
    c[i := Access(c[i], g.TagOf(addr))]
  }

  predicate Hits(g: Geometry, c: Cache, addr: Addr)
    requires CacheShaped(g, c)
  {
    g.TagOf(addr) in c[g.SetOf(addr)].lookup
  }

  lemma EmptyCacheShaped(g: Geometry, ways: nat)
    requires g.sets > 0 && ways > 0
    ensures CacheShaped(g, EmptyCache(g, ways))
  {
  }

  /** The cache after a trace of accesses. */
  function RunCache(g: Geometry, ways: nat, trace: seq<Addr>): (c: Cache)
    requires g.sets > 0 && ways > 0
    ensures CacheShaped(g, c)
  {
    if trace == [] then
      EmptyCacheShaped(g, ways);
      EmptyCache(g, ways)
    else
      AccessCache(g, RunCache(g, ways, trace[..|trace| - 1]), trace[|trace| - 1])
  }

  /** The tags that a trace asks one set for. */
  function SetHistory(g: Geometry, trace: seq<Addr>, index: nat): seq<Addr>
    requires g.sets > 0
  {
    if trace == [] then [] else
      var h := SetHistory(g, trace[..|trace| - 1], index);
      var addr := trace[|trace| - 1];
      if g.SetOf(addr) == index then h + [g.TagOf(addr)] else h
  }

  /** Sets do not disturb one another: each is what its own part of the trace makes of it. */
  lemma {:induction false} SetsAreSeparate(g: Geometry, ways: nat, trace: seq<Addr>, i: nat)
    requires i < g.sets && ways > 0
    ensures RunCache(g, ways, trace)[i] == RunSet(ways, SetHistory(g, trace, i))
    decreases |trace|
  {
    hide Access, EmptySet;
    if trace != [] {
      var n := |trace| - 1;
      SetsAreSeparate(g, ways, trace[..n], i);
      var h := SetHistory(g, trace[..n], i);
      assert (h + [g.TagOf(trace[n])])[..|h|] == h;
    }
  }

  /** After any trace, a set holds exactly the `ways` most recently accessed distinct tags of that set. */
  lemma CacheHoldsRecent(g: Geometry, ways: nat, trace: seq<Addr>, i: nat)
    requires i < g.sets && ways > 0
    ensures Holds(RunCache(g, ways, trace)[i], Take(Recent(SetHistory(g, trace, i)), ways), ways)
  {
    SetsAreSeparate(g, ways, trace, i);
    LruHoldsRecent(ways, SetHistory(g, trace, i));
  }

  /** On every trace, what hits in a cache hits in one with more ways and the same sets and lines. */
  lemma HitsIncluded(g: Geometry, ways: nat, more: nat, trace: seq<Addr>, addr: Addr)
    requires g.sets > 0 && 0 < ways <= more
    ensures Hits(g, RunCache(g, ways, trace), addr) ==> Hits(g, RunCache(g, more, trace), addr)
  {
    var i := g.SetOf(addr);
    SetsAreSeparate(g, ways, trace, i);
    SetsAreSeparate(g, more, trace, i);
    MoreWaysHitMore(ways, more, SetHistory(g, trace, i), g.TagOf(addr));
  }

  function CountHits(g: Geometry, ways: nat, trace: seq<Addr>): nat
    requires g.sets > 0 && ways > 0
  {
    if trace == [] then 0 else
      var n := |trace| - 1;
      CountHits(g, ways, trace[..n]) + if Hits(g, RunCache(g, ways, trace[..n]), trace[n]) then 1 else 0
  }

  lemma {:induction false} MoreWaysNoFewerHits(g: Geometry, ways: nat, more: nat, trace: seq<Addr>)
    requires g.sets > 0 && 0 < ways <= more
    ensures CountHits(g, ways, trace) <= CountHits(g, more, trace)
    decreases |trace|
  {
    hide Hits, RunCache;
    if trace != [] {
      var n := |trace| - 1;
      MoreWaysNoFewerHits(g, ways, more, trace[..n]);
      HitsIncluded(g, ways, more, trace[..n], trace[n]);
    }
  }
}
