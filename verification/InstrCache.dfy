/** The cache of decoded instructions: keys, an index from keys to slots, the stored values and the
    replacement order of the slots. */
module InstrCaching {
  import opened Operations
  import opened Options
  import opened Probing
  import opened Recency
  import opened TagArray

  /** The key that marks a free slot, which is also the default key. */
  const INVALID_KEY: Addr := 0
  const DELETED_KEY: Addr := 0xFFFF_FFFF_FFFF_FFFF

  datatype Slots<V> = Slots(keys: seq<Addr>, pointers: map<Addr, nat>, storage: seq<Option<V>>, order: seq<nat>)

  /** Every slot number in use is one. */
  ghost predicate Bounded<V>(s: Slots<V>) {
    && |s.keys| == |s.storage| == |s.order|
    && Ordered(s.order, |s.keys|)
    && forall k :: k in s.pointers ==> s.pointers[k] < |s.keys|
  }

  function EmptySlots<V>(capacity: nat): Slots<V> {
    Slots(seq(capacity, i => INVALID_KEY), map[], seq(capacity, i => None), InitialOrder(capacity))
  }

  function Touched<V>(s: Slots<V>, slot: nat): Slots<V> {
    s.(order := MoveToFront(s.order, slot))
  }

  /** Frees the slot of a key and makes it the next to be used. */
  function Erased<V>(s: Slots<V>, key: Addr): Slots<V>
    requires Bounded(s)
  {
    if key !in s.pointers then s else
      var i := s.pointers[key];
      Slots(s.keys[i := INVALID_KEY], s.pointers - {key}, s.storage[i := None], MoveToBack(s.order, i))
  }

  function LastSlot<V>(s: Slots<V>): (slot: nat)
    requires Bounded(s)
    ensures slot < |s.keys| && slot in s.order
  {
    s.order[|s.order| - 1]
  }

  /** Takes the last slot, throws out its key and puts a new one in. */
  function Allocated<V>(s: Slots<V>, key: Addr, value: V): Slots<V>
    requires Bounded(s)
  {
    var i := LastSlot(s);
    TouchedBounded(s, i);
    var e := Erased(Touched(s, i), s.keys[i]);
    Slots(e.keys[i := key], if key in e.pointers then e.pointers else e.pointers[key := i],
          e.storage[i := Some(value)], MoveToFront(e.order, i))
  }

  lemma TouchedBounded<V>(s: Slots<V>, slot: nat)
    requires Bounded(s) && slot in s.order
    ensures Bounded(Touched(s, slot))
  {
    OrderMoved(s.order, |s.keys|, IndexOf(s.order, slot));
  }

  // ---- Keys and index ----

  /** The index is the inverse of the keys. */
  ghost predicate Inverse(keys: seq<Addr>, pointers: map<Addr, nat>) {
    && (forall k :: k in pointers ==> pointers[k] < |keys| && keys[pointers[k]] == k && k != INVALID_KEY)
    && (forall i :: 0 <= i < |keys| && keys[i] != INVALID_KEY ==> keys[i] in pointers && pointers[keys[i]] == i)
  }

  lemma InverseErased(keys: seq<Addr>, pointers: map<Addr, nat>, key: Addr)
    requires Inverse(keys, pointers) && key in pointers
    ensures Inverse(keys[pointers[key] := INVALID_KEY], pointers - {key})
  {
  }

  lemma InversePut(keys: seq<Addr>, pointers: map<Addr, nat>, i: nat, key: Addr)
    requires Inverse(keys, pointers) && i < |keys| && key !in pointers && key != INVALID_KEY
    ensures Inverse(keys[i := key], (pointers - {keys[i]})[key := i])
  {
  }

  // ---- Stored values ----

  ghost predicate Filled<V>(keys: seq<Addr>, storage: seq<Option<V>>) {
    |keys| == |storage| && forall i :: 0 <= i < |keys| ==> (storage[i].Some? <==> keys[i] != INVALID_KEY)
  }

  ghost predicate Valued<V>(s: Slots<V>) {
    Inverse(s.keys, s.pointers) && Filled(s.keys, s.storage)
  }

  /** The cache as a finite map. */
  ghost function Contents<V>(s: Slots<V>): (m: map<Addr, V>)
    requires Valued(s)
  {
    map k | k in s.pointers :: s.storage[s.pointers[k]].value
  }

  lemma EraseValued<V>(s: Slots<V>, key: Addr)
    requires Valued(s) && Bounded(s)
    ensures Valued(Erased(s, key)) && Contents(Erased(s, key)) == Contents(s) - {key}
  {
    hide MoveToBack, Ordered;
    if key in s.pointers {
      InverseErased(s.keys, s.pointers, key);
    }
  }

  lemma PutValued<V>(s: Slots<V>, i: nat, key: Addr, value: V, order: seq<nat>)
    requires Valued(s) && i < |s.keys| && key !in s.pointers && key != INVALID_KEY
    ensures Valued(Slots(s.keys[i := key], (s.pointers - {s.keys[i]})[key := i], s.storage[i := Some(value)], order))
    ensures Contents(Slots(s.keys[i := key], (s.pointers - {s.keys[i]})[key := i], s.storage[i := Some(value)], order))
         == (Contents(s) - {s.keys[i]})[key := value]
  {
    InversePut(s.keys, s.pointers, i, key);
  }

  // ---- The order of the slots ----

  ghost function Members(order: seq<nat>): (m: set<nat>)
    ensures forall w :: w in m <==> w in order
  {
    if order == [] then {} else Members(order[..|order| - 1]) + {order[|order| - 1]}
  }

  lemma {:induction false} DistinctCount(order: seq<nat>)
    requires NoDuplicates(order)
    ensures |Members(order)| == |order|
  {
    if order != [] {
      DistinctCount(order[..|order| - 1]);
    }
  }

  /** All slots are in the order. */
  lemma EverySlotOrdered(order: seq<nat>, ways: nat, w: nat)
    requires Ordered(order, ways) && w < ways
    ensures w in order
  {
    DistinctCount(order);
    assert Members(order) <= Below(ways);
    SubsetOfSameSize(Members(order), Below(ways));
  }

  /** What stands where after a move to the back. */
  lemma BackIndices<T>(s: seq<T>, k: nat)
    requires NoDuplicates(s) && k < |s|
    ensures |MoveToBack(s, s[k])| == |s| && MoveToBack(s, s[k])[|s| - 1] == s[k]
    ensures forall i :: 0 <= i < |s| - 1 ==> MoveToBack(s, s[k])[i] == s[if i < k then i else i + 1] != s[k]
  {
    IndexUnique(s, k);
    WithoutAt(s, k);
  }

  lemma OrderMovedBack(order: seq<nat>, ways: nat, k: nat)
    requires Ordered(order, ways) && k < ways
    ensures Ordered(MoveToBack(order, order[k]), ways)
  {
    hide MoveToBack;
    BackIndices(order, k);
    BackKept(order, order[k]);
    hide NoDuplicates;
    var moved := MoveToBack(order, order[k]);
    forall i | 0 <= i < ways ensures moved[i] < ways {
      assert moved[i] == order[if i == ways - 1 then k else if i < k then i else i + 1];
    }
  }

  lemma StoredWithout(order: seq<nat>, tags: seq<Tag>, stack: seq<Addr>, k: nat, freed: Tag)
    requires Ordered(order, |tags|) && Stored(order, tags, stack) && k < |stack| && !freed.isValid
    ensures Ordered(MoveToBack(order, order[k]), |tags|)
    ensures Stored(MoveToBack(order, order[k]), tags[order[k] := freed], Without(stack, k))
  {
    hide MoveToBack;
    OrderMovedBack(order, |tags|, k);
    BackIndices(order, k);
    WithoutKept(stack, k);
    WithoutAt(stack, k);
    hide NoDuplicates, Without;
  }

  lemma IndexedWithout(order: seq<nat>, lookup: map<Addr, nat>, stack: seq<Addr>, k: nat)
    requires Ordered(order, |order|) && NoDuplicates(stack) && Indexed(order, lookup, stack) && k < |stack|
    ensures Indexed(MoveToBack(order, order[k]), lookup - {stack[k]}, Without(stack, k))
  {
    hide MoveToBack;
    BackIndices(order, k);
    WithoutKept(stack, k);
    WithoutAt(stack, k);
    hide NoDuplicates, Without;
  }

  lemma FrontOfBack(order: seq<nat>, ways: nat, i: nat)
    requires Ordered(order, ways) && i in order
    ensures MoveToFront(MoveToFront(order, i), i) == MoveToFront(order, i)
    ensures MoveToFront(MoveToBack(MoveToFront(order, i), i), i) == MoveToFront(order, i)
  {
    var k := IndexOf(order, i);
    var rest := Without(order, k);
    WithoutKept(order, k);
    assert i !in rest;
    assert MoveToFront(order, i) == [i] + rest;
    assert IndexOf([i] + rest, i) == 0;
    assert Without([i] + rest, 0) == rest;
    assert MoveToBack([i] + rest, i) == rest + [i];
    LastIndex(rest, i);
    assert Without(rest + [i], |rest|) == rest;
  }

  lemma LastIndex(rest: seq<nat>, i: nat)
    requires i !in rest
    ensures i in rest + [i] && IndexOf(rest + [i], i) == |rest|
  {
    var s := rest + [i];
    var k := IndexOf(s, i);
    assert forall j :: 0 <= j < |rest| ==> s[j] != i;
  }

  // ---- The slots as one set of a cache ----

  function TagsOf(keys: seq<Addr>): (tags: seq<Tag>)
    ensures |tags| == |keys|
    ensures forall i :: 0 <= i < |keys| ==> tags[i] == Tag(keys[i] != INVALID_KEY, keys[i])
  {
    seq(|keys|, i requires 0 <= i < |keys| => Tag(keys[i] != INVALID_KEY, keys[i]))
  }

  lemma TagsUpdate(keys: seq<Addr>, i: nat, key: Addr)
    requires i < |keys|
    ensures TagsOf(keys[i := key]) == TagsOf(keys)[i := Tag(key != INVALID_KEY, key)]
  {
  }

  function AsSet<V>(s: Slots<V>): CacheSet {
    CacheSet(s.order, TagsOf(s.keys), s.pointers)
  }

  /** The live keys are those of `stack`, the last used first; keys, index and values agree. */
  ghost predicate Consistent<V>(s: Slots<V>, stack: seq<Addr>) {
    Bounded(s) && Valued(s) && Holds(AsSet(s), stack, |s.keys|)
  }

  lemma EmptyConsistent<V>(capacity: nat)
    requires capacity > 0
    ensures Consistent(EmptySlots<V>(capacity), [])
    ensures Contents(EmptySlots<V>(capacity)) == map[]
  {
    EmptyHoldsNothing(capacity);
    hide Holds;
    assert AsSet(EmptySlots<V>(capacity)) == EmptySet(capacity);
  }

  lemma HeldInStack(t: CacheSet, stack: seq<Addr>, ways: nat, key: Addr)
    requires Holds(t, stack, ways)
    ensures key in t.lookup <==> key in stack
    ensures key in stack ==> t.lookup[key] == t.order[IndexOf(stack, key)] && IndexOf(stack, key) < |t.order|
    ensures |stack| <= ways == |t.order| == |t.tags| && Ordered(t.order, ways)
  {
  }

  lemma TouchKeeps<V>(s: Slots<V>, stack: seq<Addr>, key: Addr)
    requires Consistent(s, stack) && key in s.pointers
    ensures Consistent(Touched(s, s.pointers[key]), MoveToFront(stack, key))
    ensures Contents(Touched(s, s.pointers[key])) == Contents(s)
  {
    hide Holds, MoveToFront, Inverse, Filled, TagsOf, Ordered;
    HeldInStack(AsSet(s), stack, |s.keys|, key);
    HitKeeps(AsSet(s), stack, |s.keys|, key);
    HeldInStack(Read(AsSet(s), key), MoveToFront(stack, key), |s.keys|, key);
  }

  lemma EraseHolds(t: CacheSet, stack: seq<Addr>, ways: nat, key: Addr, freed: Tag)
    requires Holds(t, stack, ways) && key in stack && key in t.lookup && !freed.isValid
    requires t.lookup[key] < |t.tags|
    ensures Holds(CacheSet(MoveToBack(t.order, t.lookup[key]), t.tags[t.lookup[key] := freed], t.lookup - {key}),
                  Without(stack, IndexOf(stack, key)), ways)
  {
    hide MoveToBack, Without;
    var k := IndexOf(stack, key);
    StoredWithout(t.order, t.tags, stack, k, freed);
    IndexedWithout(t.order, t.lookup, stack, k);
  }

  /** Erasing a key removes it and nothing else, and frees its slot first in line. */
  lemma EraseKeeps<V>(s: Slots<V>, stack: seq<Addr>, key: Addr)
    requires Consistent(s, stack) && key in s.pointers
    ensures key in stack && Consistent(Erased(s, key), Without(stack, IndexOf(stack, key)))
    ensures Contents(Erased(s, key)) == Contents(s) - {key}
  {
    hide Holds, MoveToBack, Without, Valued, TagsOf, Contents, Ordered;
    HeldInStack(AsSet(s), stack, |s.keys|, key);
    TagsUpdate(s.keys, s.pointers[key], INVALID_KEY);
    EraseHolds(AsSet(s), stack, |s.keys|, key, Tag(false, INVALID_KEY));
    EraseValued(s, key);
    HeldInStack(AsSet(Erased(s, key)), Without(stack, IndexOf(stack, key)), |s.keys|, key);
  }

  /** The slots after an allocation, in one step. */
  lemma AllocatedForm<V>(s: Slots<V>, key: Addr, value: V)
    requires Bounded(s) && Inverse(s.keys, s.pointers) && key !in s.pointers
    ensures Allocated(s, key, value) == Slots(
      s.keys[LastSlot(s) := key], (s.pointers - {s.keys[LastSlot(s)]})[key := LastSlot(s)],
      s.storage[LastSlot(s) := Some(value)], MoveToFront(s.order, LastSlot(s)))
  {
    var i := LastSlot(s);
    FrontOfBack(s.order, |s.keys|, i);
    SlotOwned(s.keys, s.pointers, i);
    hide MoveToFront, MoveToBack, Ordered, Inverse;
    EvictedForm(s, i, key, value);
    hide Erased, Bounded;
  }

  lemma BoundedSizes<V>(s: Slots<V>)
    requires Bounded(s)
    ensures |s.keys| == |s.storage| == |s.order|
  {
  }

  lemma EvictedForm<V>(s: Slots<V>, i: nat, key: Addr, value: V)
    requires Bounded(s) && i < |s.keys| && i in s.order
    requires s.keys[i] in s.pointers ==> s.pointers[s.keys[i]] == i
    ensures Bounded(Touched(s, i))
    ensures Erased(Touched(s, i), s.keys[i]).order
         == if s.keys[i] in s.pointers then MoveToBack(MoveToFront(s.order, i), i) else MoveToFront(s.order, i)
    ensures Erased(Touched(s, i), s.keys[i]).pointers == s.pointers - {s.keys[i]}
    ensures |Erased(Touched(s, i), s.keys[i]).keys| == |s.keys| == |Erased(Touched(s, i), s.keys[i]).storage|
    ensures Erased(Touched(s, i), s.keys[i]).keys[i := key] == s.keys[i := key]
    ensures Erased(Touched(s, i), s.keys[i]).storage[i := Some(value)] == s.storage[i := Some(value)]
  {
    hide MoveToFront, MoveToBack, Ordered, Bounded;
    TouchedBounded(s, i);
    BoundedSizes(s);
    var e := Erased(Touched(s, i), s.keys[i]);
    assert e.keys[i := key] == s.keys[i := key];
    assert e.storage[i := Some(value)] == s.storage[i := Some(value)];
  }

  lemma SlotOwned(keys: seq<Addr>, pointers: map<Addr, nat>, i: nat)
    requires Inverse(keys, pointers) && i < |keys|
    ensures keys[i] in pointers ==> pointers[keys[i]] == i
    ensures keys[i] != INVALID_KEY <==> keys[i] in pointers
    ensures INVALID_KEY !in pointers
  {
  }

  /** An allocation is a write to the set. */
  lemma AllocateIsWrite<V>(s: Slots<V>, key: Addr, value: V)
    requires Bounded(s) && Inverse(s.keys, s.pointers) && key !in s.pointers && key != INVALID_KEY
    requires Shaped(AsSet(s))
    ensures AsSet(Allocated(s, key, value)) == Write(AsSet(s), key)
  {
    hide Allocated, Inverse, MoveToFront, Ordered, Shaped, Write, TagsOf, Bounded;
    AllocatedForm(s, key, value);
    PutIsWrite(AsSet(s), s.keys, key);
  }

  lemma PutIsWrite(t: CacheSet, keys: seq<Addr>, key: Addr)
    requires Shaped(t) && t.tags == TagsOf(keys) && Inverse(keys, t.lookup)
    requires key !in t.lookup && key != INVALID_KEY
    ensures TagArray.Victim(t) < |keys|
    ensures Write(t, key) == CacheSet(
      MoveToFront(t.order, TagArray.Victim(t)), TagsOf(keys[TagArray.Victim(t) := key]),
      (t.lookup - {keys[TagArray.Victim(t)]})[key := TagArray.Victim(t)])
  {
    var i := TagArray.Victim(t);
    SlotOwned(keys, t.lookup, i);
    TagsUpdate(keys, i, key);
    WriteForm(t, key);
    hide MoveToFront, Shaped, Write, Inverse;
    assert keys[i] == INVALID_KEY ==> t.lookup - {keys[i]} == t.lookup;
  }

  lemma AllocateHolds<V>(s: Slots<V>, stack: seq<Addr>, key: Addr, value: V)
    requires Consistent(s, stack) && key !in s.pointers && key != INVALID_KEY
    ensures Holds(AsSet(Allocated(s, key, value)), Take([key] + stack, |s.keys|), |s.keys|)
  {
    hide Holds, Allocated, Inverse, Ordered, Take, Write, Filled, Shaped;
    HeldInStack(AsSet(s), stack, |s.keys|, key);
    HoldsShaped(AsSet(s), stack, |s.keys|);
    AllocateIsWrite(s, key, value);
    MissKeeps(AsSet(s), stack, |s.keys|, key);
  }

  lemma AllocateValued<V>(s: Slots<V>, key: Addr, value: V)
    requires Bounded(s) && Valued(s) && key !in s.pointers && key != INVALID_KEY
    ensures Valued(Allocated(s, key, value))
    ensures Contents(Allocated(s, key, value)) == (Contents(s) - {s.keys[LastSlot(s)]})[key := value]
    ensures |Allocated(s, key, value).keys| == |s.keys| == |Allocated(s, key, value).storage|
    ensures forall k :: k in Allocated(s, key, value).pointers ==> Allocated(s, key, value).pointers[k] < |s.keys|
  {
    AllocatedForm(s, key, value);
    PutValued(s, LastSlot(s), key, value, MoveToFront(s.order, LastSlot(s)));
    hide Allocated, Inverse, Filled, MoveToFront, Ordered, Contents;
  }

  lemma HeldBounded<V>(s: Slots<V>, stack: seq<Addr>, ways: nat)
    requires Holds(AsSet(s), stack, ways) && |s.keys| == |s.storage|
    requires forall k :: k in s.pointers ==> s.pointers[k] < |s.keys|
    ensures Bounded(s) && |s.keys| == ways
  {
  }

  lemma AllocateConsistent<V>(s: Slots<V>, stack: seq<Addr>, key: Addr, value: V)
    requires Consistent(s, stack) && key !in s.pointers && key != INVALID_KEY
    ensures Consistent(Allocated(s, key, value), Take([key] + stack, |s.keys|))
  {
    hide Holds, Allocated, Ordered, Take, Valued;
    AllocateHolds(s, stack, key, value);
    AllocateValued(s, key, value);
    HeldBounded(Allocated(s, key, value), Take([key] + stack, |s.keys|), |s.keys|);
  }

  /** A new key takes the last slot, and so throws out a live key only if the cache is full: the one
      that was used the longest time ago. */
  lemma AllocateKeeps<V>(s: Slots<V>, stack: seq<Addr>, key: Addr, value: V)
    requires Consistent(s, stack) && key !in s.pointers && key != INVALID_KEY
    ensures |stack| <= |s.keys|
    ensures Consistent(Allocated(s, key, value), Take([key] + stack, |s.keys|))
    ensures |stack| < |s.keys| ==> Take([key] + stack, |s.keys|) == [key] + stack
    ensures Contents(Allocated(s, key, value))
         == (if |stack| < |s.keys| then Contents(s) else Contents(s) - {stack[|stack| - 1]})[key := value]
  {
    hide Holds, Allocated, Ordered, Inverse, Filled;
    AllocateConsistent(s, stack, key, value);
    AllocateValued(s, key, value);
    LastSlotKey(s, stack);
    hide MoveToFront, LastSlot;
    var m := Contents(s);
    assert INVALID_KEY !in m;
    assert m - {INVALID_KEY} == m;
  }

  /** The last slot is free unless the cache is full, and then holds the last key of the stack. */
  lemma LastSlotKey<V>(s: Slots<V>, stack: seq<Addr>)
    requires Consistent(s, stack)
    ensures |stack| <= |s.keys|
    ensures |stack| < |s.keys| ==> s.keys[LastSlot(s)] == INVALID_KEY
    ensures |stack| == |s.keys| ==> s.keys[LastSlot(s)] == stack[|stack| - 1]
    ensures INVALID_KEY !in s.pointers
  {
    assert TagsOf(s.keys)[LastSlot(s)] == Tag(s.keys[LastSlot(s)] != INVALID_KEY, s.keys[LastSlot(s)]);
  }
}
