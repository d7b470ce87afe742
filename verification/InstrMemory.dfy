/** The decoded-instruction cache as an object, and the instruction memory that serves fetches
    through it. */
module InstrMemory {
  import opened Endianness
  import opened InstrCaching
  import opened InstrWords
  import LoadStore
  import opened Operations
  import opened Options
  import opened Recency
  import opened Replacement
  import opened TagArray

  class InstrCache<V> {
    const lru: LRU
    var keys: seq<Addr>
    var pointers: map<Addr, nat>
    var storage: seq<Option<V>>
    /** The live keys, the last used first. */
    ghost var stack: seq<Addr>

    ghost function View(): Slots<V>
      reads this, lru
    {
      Slots(keys, pointers, storage, lru.list)
    }

    ghost predicate Valid()
      reads this, lru
    {
      Consistent(View(), stack)
    }

    ghost function Contents(): map<Addr, V>
      requires Valid()
      reads this, lru
    {
      InstrCaching.Contents(View())
    }

    constructor (capacity: nat)
      requires capacity > 0
      ensures Valid() && fresh(lru) && |keys| == capacity
      ensures stack == [] && Contents() == map[]
    {
      EmptyConsistent<V>(capacity);
      var policy := new LRU(capacity);
      for i := 0 to capacity
        invariant policy.list == Rotated(capacity, i)
        invariant fresh(policy)
      {
        RotateNext(capacity, i);
        policy.Touch(i);
      }
      lru := policy;
      keys, pointers, storage := seq(capacity, i => INVALID_KEY), map[], seq(capacity, i => None);
      stack := [];
    }

    method Size() returns (n: nat)
      requires Valid()
      ensures n == |Contents()|
    {
      assert pointers.Keys == Contents().Keys;
      n := |pointers|;
    }

    method Find(key: Addr) returns (value: Option<V>)
      requires Valid()
      ensures value == if key in Contents() then Some(Contents()[key]) else None
      ensures value.Some? <==> key in pointers
    {
      hide Holds;
      value := if key in pointers then storage[pointers[key]] else None;
    }

    method TouchSlot(key: Addr)
      requires Bounded(View()) && key in pointers
      modifies lru
      ensures View() == Touched(old(View()), pointers[key])
    {
      EverySlotOrdered(lru.list, |keys|, pointers[key]);
      hide MoveToFront, Ordered;
      lru.Touch(pointers[key]);
    }

    method Touch(key: Addr)
      requires Valid() && key in pointers
      modifies lru, this`stack
      ensures Valid() && Contents() == old(Contents()) && |keys| == old(|keys|)
      ensures stack == MoveToFront(old(stack), key)
    {
      hide Consistent, Bounded, Touched, MoveToFront, InstrCaching.Contents;
      ConsistentBounded(View(), stack);
      TouchKeeps(View(), stack, key);
      TouchSlot(key);
      stack := MoveToFront(stack, key);
    }

    /** Erases on the fields; an absent key changes nothing. */
    method Erase(key: Addr)
      requires Bounded(View())
      modifies this`keys, this`pointers, this`storage, lru
      ensures View() == Erased(old(View()), key)
    {
      hide MoveToBack;
      if key in pointers {
        var index := pointers[key];
        EverySlotOrdered(lru.list, |keys|, index);
        storage := storage[index := None];
        keys := keys[index := INVALID_KEY];
        pointers := pointers - {key};
        lru.SetToErase(index);
      }
    }

    method AllocateSlot(key: Addr, value: V)
      requires Bounded(View())
      modifies this`keys, this`pointers, this`storage, lru
      ensures View() == Allocated(old(View()), key, value)
    {
      ghost var s := View();
      TouchedBounded(s, LastSlot(s));
      hide MoveToFront, MoveToBack, Ordered;
      var index := lru.Update();
      assert View() == Touched(s, LastSlot(s)) && index == LastSlot(s);
      ErasedOrders(View(), keys[index], index);
      Erase(keys[index]);
      storage := storage[index := Some(value)];
      keys := keys[index := key];
      if key !in pointers {
        pointers := pointers[key := index];
      }
      lru.Touch(index);
    }

    method Allocate(key: Addr, value: V)
      requires Valid() && key !in pointers && key != INVALID_KEY && key != DELETED_KEY
      modifies this, lru
      ensures Valid() && |keys| == old(|keys|) && stack == Take([key] + old(stack), |keys|)
      ensures Contents() == (if |old(stack)| < |keys| then old(Contents())
                             else old(Contents()) - {old(stack)[|old(stack)| - 1]})[key := value]
    {
      hide Consistent, Bounded, Take, Allocated, InstrCaching.Contents;
      ConsistentBounded(View(), stack);
      AllocateKeeps(View(), stack, key, value);
      AllocateKeepsCapacity(View(), key, value);
      AllocateSlot(key, value);
      stack := Take([key] + stack, |keys|);
    }

    /** Enters a key that is absent; one that is present is touched and keeps its value. */
    method Update(key: Addr, value: V)
      requires Valid() && key != INVALID_KEY && key != DELETED_KEY
      modifies this, lru
      ensures Valid() && |keys| == old(|keys|)
      ensures key in old(pointers) ==>
        Contents() == old(Contents()) && stack == MoveToFront(old(stack), key)
      ensures key !in old(pointers) ==>
        && stack == Take([key] + old(stack), |keys|)
        && Contents() == (if |old(stack)| < |keys| then old(Contents())
                          else old(Contents()) - {old(stack)[|old(stack)| - 1]})[key := value]
    {
      hide Holds, MoveToFront, Take;
      if key in pointers {
        Touch(key);
      } else {
        Allocate(key, value);
      }
    }

    /** Erases a key together with its place in the order of use. */
    method EraseKey(key: Addr)
      requires Valid()
      modifies this, lru
      ensures Valid() && Contents() == old(Contents()) - {key} && |keys| == old(|keys|)
      ensures key !in pointers
      ensures stack == if key in old(stack) then Without(old(stack), IndexOf(old(stack), key)) else old(stack)
    {
      HeldInStack(AsSet(View()), stack, |keys|, key);
      hide Holds, Without, MoveToBack;
      if key in pointers {
        EraseKeeps(View(), stack, key);
        Erase(key);
        stack := Without(stack, IndexOf(stack, key));
      } else {
        Erase(key);
      }
    }
  }

  /** Touching the slots one by one from the first leaves the order that the list starts with. */
  function Rotated(n: nat, i: nat): (order: seq<nat>)
    requires i <= n
    ensures |order| == n
  {
    seq(n, k requires 0 <= k < n => if k < i then i - 1 - k else n - 1 - (k - i))
  }

  lemma ConsistentBounded<V>(s: Slots<V>, stack: seq<Addr>)
    requires Consistent(s, stack)
    ensures Bounded(s)
  {
  }

  lemma AllocateKeepsCapacity<V>(s: Slots<V>, key: Addr, value: V)
    requires Bounded(s)
    ensures |Allocated(s, key, value).keys| == |s.keys|
  {
    hide MoveToFront, MoveToBack, Ordered;
  }

  lemma ErasedOrders<V>(s: Slots<V>, key: Addr, slot: nat)
    requires Bounded(s) && slot in s.order
    ensures slot in Erased(s, key).order
  {
    if key in s.pointers {
      var i := s.pointers[key];
      EverySlotOrdered(s.order, |s.keys|, i);
      BackKept(s.order, i);
    }
  }

  lemma RotateNext(n: nat, i: nat)
    requires i < n
    ensures i in Rotated(n, i) && MoveToFront(Rotated(n, i), i) == Rotated(n, i + 1)
  {
    var order := Rotated(n, i);
    assert order[n - 1] == i;
    assert forall k :: 0 <= k < n - 1 ==> order[k] != i;
    assert IndexOf(order, i) == n - 1;
    hide IndexOf;
    assert Without(order, n - 1) == order[..n - 1];
    assert [i] + order[..n - 1] == Rotated(n, i + 1);
  }

  // ---- Fetching ----

  /** A decoded instruction keeps the bytes it was decoded from. */
  datatype FuncInstr<D> = FuncInstr(raw: Word, pc: Addr, decoded: D)

  type Decoder<!D> = (Word, Addr) -> D

  function CreateInstr<D>(decoder: Decoder<D>, bytes: Word, pc: Addr): FuncInstr<D> {
    FuncInstr(bytes, pc, decoder(bytes, pc))
  }

  datatype Event = Fetch(pc: Addr) | Write(addr: Addr, byte: Byte)

  function MemoryAfter(mem: Memory, events: seq<Event>): Memory
    decreases |events|
  {
    if events == [] then mem else
      var n := |events| - 1;
      var before := MemoryAfter(mem, events[..n]);
      if events[n].Write? then before[events[n].addr := events[n].byte] else before
  }

  /** What a memory without a cache decodes at every fetch of a run. */
  function Uncached<D>(decoder: Decoder<D>, endian: Endian, mem: Memory, events: seq<Event>): seq<FuncInstr<D>>
    decreases |events|
  {
    if events == [] then [] else
      var n := |events| - 1;
      var before := Uncached(decoder, endian, mem, events[..n]);
      if events[n].Fetch?
      then before + [CreateInstr(decoder, FetchBytes(MemoryAfter(mem, events[..n]), endian, events[n].pc),
                                 events[n].pc)]
      else before
  }

  /** Of two fetches with a write in between, however much was fetched and written before, the second
      gives other raw bytes exactly if the write changed one of the four. */
  lemma RefetchSees<D>(decoder: Decoder<D>, endian: Endian, mem: Memory, before: seq<Event>, pc: Addr, addr: Addr,
                       byte: Byte)
    ensures var events := before + [Fetch(pc)] + [Write(addr, byte)] + [Fetch(pc)];
            var r := Uncached(decoder, endian, mem, events);
            && |r| >= 2
            && (r[|r| - 1].raw != r[|r| - 2].raw
                <==> pc <= addr < pc + 4 && byte != LoadStore.ByteAt(MemoryAfter(mem, before), addr))
  {
    hide FetchBytes, LoadStore.ByteAt;
    var e1 := before + [Fetch(pc)];
    var e2 := e1 + [Write(addr, byte)];
    var e3 := e2 + [Fetch(pc)];
    assert e1[..|before|] == before && e2[..|e1|] == e1 && e3[..|e2|] == e2;
    assert before + [Fetch(pc)] + [Write(addr, byte)] + [Fetch(pc)] == e3;
    var r0, r1 := Uncached(decoder, endian, mem, before), Uncached(decoder, endian, mem, e1);
    assert r1 == r0 + [CreateInstr(decoder, FetchBytes(MemoryAfter(mem, before), endian, pc), pc)];
    assert Uncached(decoder, endian, mem, e2) == r1 && MemoryAfter(mem, e1) == MemoryAfter(mem, before);
    assert MemoryAfter(mem, e2) == MemoryAfter(mem, before)[addr := byte];
    WriteIsSeen(MemoryAfter(mem, before), endian, pc, addr, byte);
  }

  class InstrMemoryCached<D> {
    const instrCache: InstrCache<FuncInstr<D>>
    const decoder: Decoder<D>
    const endian: Endian

    /** Every cached instruction is the decoding of the bytes it keeps, at the address it is kept for. */
    ghost predicate Valid()
      reads instrCache, instrCache.lru
    {
      && instrCache.Valid()
      && forall k :: k in instrCache.Contents() ==>
           instrCache.Contents()[k] == CreateInstr(decoder, instrCache.Contents()[k].raw, k)
    }

    constructor (decoder: Decoder<D>, endian: Endian, capacity: nat)
      requires capacity > 0
      ensures Valid() && fresh(instrCache) && fresh(instrCache.lru)
      ensures this.decoder == decoder && this.endian == endian
    {
      instrCache := new InstrCache<FuncInstr<D>>(capacity);
      this.decoder, this.endian := decoder, endian;
    }

    /** Whatever the cache holds, a fetch gives the decoding of the bytes that memory holds now. */
    method FetchInstr(mem: Memory, pc: Addr) returns (instr: FuncInstr<D>)
      requires Valid() && pc != DELETED_KEY
      modifies instrCache, instrCache.lru
      ensures Valid() && instr == CreateInstr(decoder, FetchBytes(mem, endian, pc), pc)
      ensures HoldsBytes(instr.raw, mem, endian, pc)
      ensures instr.pc == pc && instr.decoded == decoder(instr.raw, pc)
    {
      hide Consistent, FetchBytes, InstrCaching.Contents, Take, HoldsBytes;
      FetchedHolds(mem, endian, pc);
      var found := instrCache.Find(pc);
      if found.Some? && found.value.raw == FetchBytes(mem, endian, pc) {
        instrCache.Touch(pc);
        return found.value;
      }
      if found.Some? {
        instrCache.EraseKey(pc);
      }
      instr := CreateInstr(decoder, FetchBytes(mem, endian, pc), pc);
      if pc != 0 {
        instrCache.Update(pc, instr);
      }
    }

    /** Under any interleaving of fetches and memory writes, the cached memory decodes what an uncached
        one would. */
    method Run(start: Memory, events: seq<Event>) returns (instrs: seq<FuncInstr<D>>, mem: Memory)
      requires Valid() && forall e :: e in events && e.Fetch? ==> e.pc != DELETED_KEY
      modifies instrCache, instrCache.lru
      ensures Valid() && mem == MemoryAfter(start, events)
      ensures instrs == Uncached(decoder, endian, start, events)
    {
      hide Valid;
      instrs, mem := [], start;
      for i := 0 to |events|
        invariant Valid() && mem == MemoryAfter(start, events[..i])
        invariant instrs == Uncached(decoder, endian, start, events[..i])
      {
        assert events[..i + 1][..i] == events[..i];
        match events[i]
        case Fetch(pc) =>
          var instr := FetchInstr(mem, pc);
          instrs := instrs + [instr];
        case Write(addr, byte) =>
          mem := mem[addr := byte];
      }
      assert events[..|events|] == events;
    }
  }
}
