/** The ports as objects: a ring buffer behind every read port, and a write port that feeds one or
    several of them. */
module PortObjects {
  import opened Options
  import opened PortCapacity
  import opened PortTiming

  /** The slot of the i-th value from the front of a ring. */
  function SlotOf(front: nat, i: nat, capacity: nat): (slot: nat)
    requires i <= capacity && front < capacity
    ensures slot < capacity
  {
    if front + i < capacity then front + i else front + i - capacity
  }

  /** A ring buffer. Putting a value into a full one overwrites its front. */
  class PortQueue<T> {
    const arena: array<Option<T>>
    const capacity: nat
    var pFront: nat
    var pBack: nat
    var occupied: nat

    ghost predicate Shaped()
      reads this
    {
      arena.Length == capacity > 0 && pFront < capacity && pBack < capacity
    }

    ghost predicate Valid()
      reads this, arena
    {
      && Shaped() && occupied <= capacity
      && pBack == SlotOf(pFront, occupied, capacity)
      && forall i: nat :: i < occupied ==> arena[SlotOf(pFront, i, capacity)].Some?
    }

    lemma ValidIsShaped()
      requires Valid()
      ensures Shaped()
    {
    }

    ghost function Contents(): (s: seq<T>)
      requires Valid()
      reads this, arena
      ensures |s| == occupied
    {
      seq(occupied, i requires 0 <= i < occupied && Valid() reads this, arena =>
        arena[SlotOf(pFront, i, capacity)].value)
    }

    constructor (size: nat)
      requires size > 0
      ensures Valid() && fresh(arena) && capacity == size && Contents() == []
    {
      arena := new Option<T>[size](_ => None);
      capacity := size;
      pFront, pBack, occupied := 0, 0, 0;
    }

    function Advanced(p: nat): nat {
      if p + 1 == capacity then 0 else p + 1
    }

    /** Nothing is refused, at any time: the value goes into the slot at the back. With a free slot that
        appends it; in a full ring it replaces the value at the front, and the count runs past the
        capacity. */
    method Emplace(what: T)
      requires Shaped()
      modifies this`pBack, this`occupied, arena
      ensures Shaped() && occupied == old(occupied) + 1 && pBack == Advanced(old(pBack))
      ensures arena[..] == old(arena[..])[old(pBack) := Some(what)]
      ensures old(Valid()) && old(occupied) < capacity ==> Valid() && Contents() == old(Contents()) + [what]
      ensures old(Valid()) && old(occupied) >= capacity ==> arena[pFront] == Some(what)
    {
      ghost var was := arena[..];
      assert Valid() ==> forall i: nat :: i < occupied < capacity ==> SlotOf(pFront, i, capacity) != pBack;
      ghost var before := if Valid() then Contents() else [];
      ghost var fits := Valid() && occupied < capacity;
      arena[pBack] := Some(what);
      pBack := Advanced(pBack);
      occupied := occupied + 1;
      assert fits ==> forall i: nat :: i < |before| ==> arena[SlotOf(pFront, i, capacity)] == Some(before[i]);
    }

    predicate Empty()
      reads this
    {
      occupied == 0
    }

    function Front(): T
      requires Valid() && !Empty()
      reads this, arena
      ensures Front() == Contents()[0]
    {
      assert SlotOf(pFront, 0, capacity) == pFront;
      arena[pFront].value
    }

    method Pop()
      requires Valid() && !Empty()
      modifies this`pFront, this`occupied, arena
      ensures Valid() && Contents() == old(Contents())[1..]
    {
      ghost var before := Contents();
      assert forall i: nat :: 0 < i < occupied ==> SlotOf(pFront, i, capacity) != pFront;
      arena[pFront] := None;
      pFront := Advanced(pFront);
      occupied := occupied - 1;
      assert forall i: nat :: i < occupied ==> arena[SlotOf(pFront, i, capacity)] == Some(before[i + 1]);
    }
  }

  /** How many of the values due at a cycle have been read, if `taken` had been in the cycle `last`. */
  function TakenThen(last: nat, taken: nat, cycle: nat): nat {
    if cycle == last then taken else 0
  }

  class ReadPort<T> {
    const queue: PortQueue<Entry<T>>
    const latency: nat
    var lastCycle: nat
    ghost const bandwidth: nat
    /** Everything ever written to the port. */
    ghost var log: seq<Entry<T>>
    /** How many values were read in the last cycle. */
    ghost var taken: nat

    ghost predicate Valid()
      reads this, queue, queue.arena
    {
      && queue.Valid()
      && queue.capacity == (latency + 1) * bandwidth
      && Sorted(log)
      && (forall i :: 0 <= i < |log| ==> log[i].due <= lastCycle + latency)
      && taken <= DueCount(log, lastCycle)
      && queue.Contents() == Pending(log, lastCycle, taken)
    }

    /** How many of the values due at a cycle have been read already. */
    ghost function TakenAt(cycle: nat): nat
      reads this
    {
      TakenThen(lastCycle, taken, cycle)
    }

    ghost predicate Shows(log: seq<Entry<T>>, cycle: nat, taken: nat)
      reads this, queue, queue.arena
    {
      Valid() && this.log == log && lastCycle == cycle && this.taken == taken
    }

    constructor (latency: nat, bandwidth: nat)
      requires bandwidth > 0
      ensures Valid() && fresh(queue) && fresh(queue.arena)
      ensures this.latency == latency && this.bandwidth == bandwidth && log == [] && lastCycle == taken == 0
    {
      assert (latency + 1) * bandwidth >= bandwidth;
      queue := new PortQueue<Entry<T>>((latency + 1) * bandwidth);
      this.latency, this.bandwidth := latency, bandwidth;
      lastCycle, log, taken := 0, [], 0;
    }

    method DropStale(cycle: nat) returns (ghost k: nat)
      requires queue.Valid()
      modifies queue, queue.arena
      ensures queue.Valid()
      ensures k <= |old(queue.Contents())| && queue.Contents() == old(queue.Contents())[k..]
      ensures forall i :: 0 <= i < k ==> old(queue.Contents())[i].due < cycle
      ensures k < |old(queue.Contents())| ==> old(queue.Contents())[k].due >= cycle
    {
      hide PortQueue.Valid, PortQueue.Contents;
      k := 0;
      while !queue.Empty() && queue.Front().due < cycle
        invariant queue.Valid()
        invariant k <= |old(queue.Contents())| && queue.Contents() == old(queue.Contents())[k..]
        invariant forall i :: 0 <= i < k ==> old(queue.Contents())[i].due < cycle
        decreases queue.occupied
      {
        queue.Pop();
        k := k + 1;
      }
    }

    /** Drops what should have been read in an earlier cycle. */
    method CleanupStaleData(cycle: nat)
      requires Valid() && lastCycle <= cycle
      modifies this`lastCycle, this`taken, queue, queue.arena
      ensures Valid() && lastCycle == cycle && taken == old(TakenAt(cycle))
    {
      hide PortQueue.Valid, PortQueue.Contents, Sorted, Pending, DueCount;
      var k := DropStale(cycle);
      PendingLater(log, lastCycle, taken, cycle, k);
      if lastCycle < cycle {
        taken := 0;
      }
      lastCycle := cycle;
    }

    /** A value is ready exactly if one was written `latency` cycles ago and has not been read. */
    method IsReady(cycle: nat) returns (ready: bool)
      requires Valid() && lastCycle <= cycle
      modifies this`lastCycle, this`taken, queue, queue.arena
      ensures Valid() && lastCycle == cycle && taken == old(TakenAt(cycle))
      ensures ready <==> taken < |DueAt(log, cycle)|
      ensures ready ==> !queue.Empty() && queue.Front() == Entry(DueAt(log, cycle)[taken], cycle)
    {
      hide Before, DueAt, Sorted, PortQueue.Valid, PortQueue.Contents;
      CleanupStaleData(cycle);
      DueAtCounted(log, cycle);
      if taken < DueCount(log, cycle) {
        DueAtIndex(log, cycle, taken);
      } else {
        BeforeIsPrefix(log, cycle + 1);
      }
      ready := !queue.Empty() && queue.Front().due == cycle;
    }

    /** Reads the next of the values due in this cycle; nothing is due: an error. */
    method Read(cycle: nat) returns (value: Option<T>)
      requires Valid() && lastCycle <= cycle
      modifies this`lastCycle, this`taken, queue, queue.arena
      ensures Valid() && lastCycle == cycle
      ensures old(TakenAt(cycle)) < |DueAt(log, cycle)| ==>
                value == Some(DueAt(log, cycle)[old(TakenAt(cycle))]) && taken == old(TakenAt(cycle)) + 1
      ensures old(TakenAt(cycle)) >= |DueAt(log, cycle)| ==> value == None && taken == old(TakenAt(cycle))
    {
      hide Before, DueAt, Sorted;
      var ready := IsReady(cycle);
      if !ready {
        return None;
      }
      DueAtCounted(log, cycle);
      value := Some(queue.Front().value);
      queue.Pop();
      taken := taken + 1;
    }

    /** Will a value written in a cycle find a free slot? */
    ghost predicate HasRoom(cycle: nat)
      reads this
    {
      Room(log, cycle, TakenAt(cycle), queue.capacity)
    }

    /** A value to be read `latency` cycles later. Without a free slot it takes that of the first
        value pending. */
    method EmplaceData(what: T, cycle: nat)
      requires Valid() && lastCycle <= cycle
      modifies this`lastCycle, this`taken, this`log, queue, queue.arena
      ensures lastCycle == cycle && taken == old(TakenAt(cycle))
      ensures log == old(log) + [Entry(what, cycle + latency)]
      ensures old(HasRoom(cycle)) ==> Valid()
      ensures !old(HasRoom(cycle)) ==>
                queue.occupied > queue.capacity && queue.Shaped()
                && queue.arena[queue.pFront] == Some(Entry(what, cycle + latency))
    {
      hide PortQueue.Valid, PortQueue.Contents, Pending, DueCount, Sorted;
      CleanupStaleData(cycle);
      var e := Entry(what, cycle + latency);
      LogAppended(log, e);
      DueCountAppended(log, e, cycle);
      PendingAppended(log, e, cycle, taken);
      assert queue.occupied == |queue.Contents()|;
      queue.ValidIsShaped();
      queue.Emplace(e);
      log := log + [e];
    }
  }

  /** The readers share no storage. */
  ghost predicate Apart<T>(readers: seq<ReadPort<T>>) {
    forall i, j :: 0 <= i < j < |readers| ==>
      && readers[i] != readers[j]
      && readers[i].queue != readers[j].queue
      && readers[i].queue.arena != readers[j].queue.arena
  }

  lemma OthersApart<T>(readers: seq<ReadPort<T>>, i: nat)
    requires Apart(readers) && i < |readers|
    ensures forall k :: 0 <= k < |readers| && k != i ==>
      && readers[k] != readers[i] && readers[k].queue != readers[i].queue
      && readers[k].queue.arena != readers[i].queue.arena
  {
  }

  /** Feeds every value to all of its readers. */
  class WritePort<T> {
    const destinations: seq<ReadPort<T>>
    const bandwidth: nat
    var lastCycle: nat
    var writeCounter: nat
    /** Everything ever written. */
    ghost var writes: seq<Written<T>>

    ghost function Queues(): set<object> {
      set d | d in destinations :: d.queue
    }

    ghost function Arenas(): set<object> {
      set d | d in destinations :: d.queue.arena
    }

    ghost predicate Separate() {
      Apart(destinations)
    }

    /** Every reader got the same values in the order of writing, each delayed by its own latency. */
    ghost predicate Valid()
      reads this, destinations, Queues(), Arenas()
    {
      && Separate() && destinations != []
      && NonDecreasing(Cycles(writes))
      && Counted(Cycles(writes)) == WriteState(lastCycle, writeCounter)
      && Served()
    }

    /** Every reader has got the same writes. */
    ghost predicate Served()
      reads this`writes, destinations, Queues(), Arenas()
    {
      forall k :: 0 <= k < |destinations| ==> Reader(k)
    }

    ghost predicate Reader(k: nat)
      requires k < |destinations|
      reads this`writes, destinations, Queues(), Arenas()
    {
      var d := destinations[k];
      d.Valid() && d.bandwidth == bandwidth && d.log == Delayed(writes, d.latency)
    }

    constructor (readers: seq<ReadPort<T>>, bandwidth: nat)
      requires readers != [] && Apart(readers)
      requires forall k :: 0 <= k < |readers| ==>
        readers[k].Valid() && readers[k].log == [] && readers[k].bandwidth == bandwidth
      ensures Valid() && writes == [] && destinations == readers && this.bandwidth == bandwidth
    {
      hide *;
      destinations, this.bandwidth := readers, bandwidth;
      lastCycle, writeCounter, writes := 0, 0, [];
      new;
      JustMade(this);
    }

    /** Counts the write; says whether the port is overloaded. */
    method IncrementWriteCounter(cycle: nat) returns (overloaded: bool)
      requires lastCycle <= cycle
      modifies this`lastCycle, this`writeCounter
      ensures lastCycle == cycle && writeCounter == CounterAfter(old(lastCycle), old(writeCounter), cycle)
      ensures overloaded <==> writeCounter > bandwidth
    {
      writeCounter := if lastCycle == cycle then writeCounter + 1 else 0;
      lastCycle := cycle;
      overloaded := writeCounter > bandwidth;
    }

    ghost predicate AllHaveRoom(cycle: nat)
      reads destinations
    {
      forall k :: 0 <= k < |destinations| ==> destinations[k].HasRoom(cycle)
    }

    /** An overload writes nothing. A write that passes the check reaches all readers if each of them
        has a free slot. */
    method Write(what: T, cycle: nat) returns (overloaded: bool)
      requires Valid() && lastCycle <= cycle
      requires forall k :: 0 <= k < |destinations| ==> destinations[k].lastCycle <= cycle
      modifies this, destinations, Queues(), Arenas()
      ensures lastCycle == cycle && writeCounter == CounterAfter(old(lastCycle), old(writeCounter), cycle)
      ensures overloaded <==> writeCounter > bandwidth
      ensures overloaded ==> writes == old(writes) && Served()
      ensures !overloaded ==> writes == old(writes) + [Written(what, cycle)]
      ensures !overloaded && old(AllHaveRoom(cycle)) ==>
        Valid() && forall k :: 0 <= k < |destinations| ==>
          destinations[k].lastCycle == cycle && destinations[k].taken == old(destinations[k].TakenAt(cycle))
    {
      WriteCounted(writes, Written(what, cycle));
      hide Cycles, Counted, CountOf, NonDecreasing, Separate, ReadPort.HasRoom, Reader;
      overloaded := IncrementWriteCounter(cycle);
      if !overloaded {
        BasicWrite(what, cycle);
      }
    }

    /** Hands a value to all readers, to the first one last. */
    method BasicWrite(what: T, cycle: nat)
      requires Separate() && destinations != []
      requires Served() && forall k :: 0 <= k < |destinations| ==> destinations[k].lastCycle <= cycle
      modifies this`writes, destinations, Queues(), Arenas()
      ensures writes == old(writes) + [Written(what, cycle)]
      ensures forall k :: 0 <= k < |destinations| ==>
        (old(destinations[k].HasRoom(cycle)) ==> Reader(k) && destinations[k].lastCycle == cycle
                                                 && destinations[k].taken == old(destinations[k].TakenAt(cycle)))
    {
      hide ReadPort.Valid, Delayed, Room, TakenThen, Apart;
      ghost var before := writes;
      ghost var lasts := seq(|destinations|, k requires 0 <= k < |destinations| reads destinations =>
        destinations[k].lastCycle);
      ghost var takens := seq(|destinations|, k requires 0 <= k < |destinations| reads destinations =>
        destinations[k].taken);
      forall k | 0 <= k < |destinations|
        ensures destinations[k].Shows(Delayed(before, destinations[k].latency), lasts[k], takens[k])
      {
        assert Reader(k);
      }
      Feed(what, cycle, before, lasts, takens);
      writes := writes + [Written(what, cycle)];
    }

    method Feed(what: T, cycle: nat, ghost before: seq<Written<T>>, ghost lasts: seq<nat>, ghost takens: seq<nat>)
      requires Separate() && destinations != [] && |lasts| == |takens| == |destinations|
      requires forall k :: 0 <= k < |destinations| ==>
        destinations[k].Shows(Delayed(before, destinations[k].latency), lasts[k], takens[k]) && lasts[k] <= cycle
      modifies destinations, Queues(), Arenas()
      ensures forall k :: 0 <= k < |destinations| ==>
        var d := destinations[k];
        (Room(Delayed(before, d.latency), cycle, TakenThen(lasts[k], takens[k], cycle), d.queue.capacity) ==>
         d.Shows(Delayed(before + [Written(what, cycle)], d.latency), cycle, TakenThen(lasts[k], takens[k], cycle)))
    {
      hide ReadPort.Shows, Delayed, Room, TakenThen, Apart;
      ghost var after := before + [Written(what, cycle)];
      ghost var olds := seq(|destinations|, k requires 0 <= k < |destinations| =>
        Delayed(before, destinations[k].latency));
      ghost var news := seq(|destinations|, k requires 0 <= k < |destinations| =>
        Delayed(after, destinations[k].latency));
      forall k | 0 <= k < |destinations|
        ensures news[k] == olds[k] + [Entry(what, cycle + destinations[k].latency)]
      {
        DelayedNext(before, Written(what, cycle), destinations[k].latency);
      }
      var i := 1;
      while i < |destinations|
        invariant 1 <= i <= |destinations|
        invariant forall k :: 1 <= k < i ==>
          (Room(olds[k], cycle, TakenThen(lasts[k], takens[k], cycle), destinations[k].queue.capacity) ==>
           destinations[k].Shows(news[k], cycle, TakenThen(lasts[k], takens[k], cycle)))
        invariant forall k :: k == 0 || i <= k < |destinations| ==> destinations[k].Shows(olds[k], lasts[k], takens[k])
      {
        OthersApart(destinations, i);
        EmplaceTo(destinations[i], what, cycle, olds[i], lasts[i], takens[i]);
        i := i + 1;
      }
      OthersApart(destinations, 0);
      EmplaceTo(destinations[0], what, cycle, olds[0], lasts[0], takens[0]);
    }
  }

  lemma JustMade<T>(w: WritePort<T>)
    requires w.destinations != [] && Apart(w.destinations)
    requires w.writes == [] && w.lastCycle == w.writeCounter == 0
    requires forall k :: 0 <= k < |w.destinations| ==>
      w.destinations[k].Valid() && w.destinations[k].log == [] && w.destinations[k].bandwidth == w.bandwidth
    ensures w.Valid()
  {
    hide Apart, ReadPort.Valid, Cycles, Counted, NonDecreasing;
    NoWrites<T>();
    forall k | 0 <= k < |w.destinations|
      ensures w.Reader(k)
    {
      assert Delayed(w.writes, w.destinations[k].latency) == [];
    }
  }

  /** Where the pending values start. */
  lemma PendingStart<T>(log: seq<Entry<T>>, last: nat, taken: nat, cycle: nat)
    requires taken <= DueCount(log, last) && last <= cycle
    ensures TakenThen(last, taken, cycle) <= DueCount(log, cycle)
    ensures Before(log, cycle) + TakenThen(last, taken, cycle) <= |log|
    ensures last < cycle ==> Before(log, last) + taken <= Before(log, cycle)
  {
    hide Before;
    BeforeMonotonic(log, last, last + 1);
    BeforeMonotonic(log, cycle, cycle + 1);
    if last < cycle {
      BeforeMonotonic(log, last + 1, cycle);
    }
  }

  /** Dropping the stale values from the front leaves what is pending at the later cycle. */
  lemma PendingLater<T>(log: seq<Entry<T>>, last: nat, taken: nat, cycle: nat, k: nat)
    requires Sorted(log) && taken <= DueCount(log, last) && last <= cycle
    requires k <= |Pending(log, last, taken)|
    requires forall i :: 0 <= i < k ==> Pending(log, last, taken)[i].due < cycle
    requires k < |Pending(log, last, taken)| ==> Pending(log, last, taken)[k].due >= cycle
    ensures TakenThen(last, taken, cycle) <= DueCount(log, cycle)
    ensures Pending(log, last, taken)[k..] == Pending(log, cycle, TakenThen(last, taken, cycle))
  {
    hide Before, Sorted, DueCount;
    PendingStart(log, last, taken, last);
    PendingStart(log, last, taken, cycle);
    var start, b := Before(log, last) + taken, Before(log, cycle);
    var pending := Pending(log, last, taken);
    assert forall i :: start <= i < |log| ==> log[i] == pending[i - start];
    BeforeIsPrefix(log, cycle);
    if last < cycle {
      assert start + k < |log| ==> log[start + k].due >= cycle;
      assert b < |log| ==> log[b].due >= cycle;
      assert start + k == b;
    } else {
      assert pending != [] ==> pending[0].due >= cycle;
    }
  }

  /** `EmplaceData`, with the whole state before and after. */
  method EmplaceTo<T>(d: ReadPort<T>, what: T, cycle: nat, ghost log: seq<Entry<T>>, ghost last: nat, ghost taken: nat)
    requires d.Shows(log, last, taken) && last <= cycle
    modifies d, d.queue, d.queue.arena
    ensures Room(log, cycle, TakenThen(last, taken, cycle), d.queue.capacity) ==>
              d.Shows(log + [Entry(what, cycle + d.latency)], cycle, TakenThen(last, taken, cycle))
  {
    hide ReadPort.Valid, DueCount, Room;
    d.EmplaceData(what, cycle);
  }

  lemma LogAppended<T>(log: seq<Entry<T>>, e: Entry<T>)
    requires Sorted(log) && forall i :: 0 <= i < |log| ==> log[i].due <= e.due
    ensures Sorted(log + [e]) && forall i :: 0 <= i < |log + [e]| ==> (log + [e])[i].due <= e.due
  {
  }

  lemma DueCountAppended<T>(log: seq<Entry<T>>, e: Entry<T>, c: nat)
    ensures DueCount(log + [e], c) == DueCount(log, c) + if c == e.due then 1 else 0
  {
    BeforeAppended(log, e, c);
    BeforeAppended(log, e, c + 1);
  }

  lemma PendingAppended<T>(log: seq<Entry<T>>, e: Entry<T>, cycle: nat, taken: nat)
    requires taken <= DueCount(log, cycle) && taken <= DueCount(log + [e], cycle) && e.due >= cycle
    ensures Pending(log + [e], cycle, taken) == Pending(log, cycle, taken) + [e]
  {
    BeforeAppended(log, e, cycle);
    BeforeMonotonic(log, cycle, cycle + 1);
  }
}
