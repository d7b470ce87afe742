/** How much a port can hold: which write cycles fit into the ring behind a reader, and which ones
    the overload check of the writer lets pass. */
module PortCapacity {
  import opened PortTiming

  /** A value and the cycle at which it was written. */
  datatype Written<T> = Written(value: T, cycle: nat)

  function Cycles<T>(writes: seq<Written<T>>): (cycles: seq<nat>)
    ensures |cycles| == |writes| && forall i :: 0 <= i < |writes| ==> cycles[i] == writes[i].cycle
  {
    seq(|writes|, i requires 0 <= i < |writes| => writes[i].cycle)
  }

  /** What a reader of some latency gets from a sequence of writes. */
  function Delayed<T>(writes: seq<Written<T>>, latency: nat): (log: seq<Entry<T>>)
    ensures |log| == |writes|
    ensures forall i :: 0 <= i < |writes| ==> log[i] == Entry(writes[i].value, writes[i].cycle + latency)
  {
    seq(|writes|, i requires 0 <= i < |writes| => Entry(writes[i].value, writes[i].cycle + latency))
  }

  /** The values written at a cycle, in order. */
  function ValuesAt<T>(writes: seq<Written<T>>, cycle: nat): seq<T> {
    if writes == [] then [] else
      var w := writes[|writes| - 1];
      ValuesAt(writes[..|writes| - 1], cycle) + if w.cycle == cycle then [w.value] else []
  }

  /** What is due at a reader at a cycle is exactly what was written `latency` cycles before. */
  lemma {:induction false} DueAreWritten<T>(writes: seq<Written<T>>, latency: nat, cycle: nat)
    ensures DueAt(Delayed(writes, latency), cycle + latency) == ValuesAt(writes, cycle)
    ensures forall early: nat :: early < latency ==> DueAt(Delayed(writes, latency), early) == []
    decreases |writes|
  {
    if writes != [] {
      var n := |writes| - 1;
      DueAreWritten(writes[..n], latency, cycle);
      assert Delayed(writes, latency)[..n] == Delayed(writes[..n], latency);
    }
  }

  lemma DelayedNext<T>(writes: seq<Written<T>>, w: Written<T>, latency: nat)
    ensures Delayed(writes + [w], latency) == Delayed(writes, latency) + [Entry(w.value, w.cycle + latency)]
  {
  }

  // ---- The ring ----

  /** How many of the cycles lie before a point in time. */
  function CyclesBefore(cycles: seq<nat>, time: int): (n: nat)
    ensures n <= |cycles|
  {
    if cycles == [] then 0 else
      CyclesBefore(cycles[..|cycles| - 1], time) + if cycles[|cycles| - 1] < time then 1 else 0
  }

  /** How many of them lie in the window of `span` successive cycles from `first` on. */
  function WrittenIn(cycles: seq<nat>, first: nat, span: nat): nat {
    if cycles == [] then 0 else
      WrittenIn(cycles[..|cycles| - 1], first, span)
      + if first <= cycles[|cycles| - 1] < first + span then 1 else 0
  }

  ghost predicate NonDecreasing(cycles: seq<nat>) {
    forall i, j :: 0 <= i <= j < |cycles| ==> cycles[i] <= cycles[j]
  }

  lemma {:induction false} WindowIs(cycles: seq<nat>, first: nat, span: nat)
    ensures WrittenIn(cycles, first, span) == CyclesBefore(cycles, first + span) - CyclesBefore(cycles, first)
    decreases |cycles|
  {
    if cycles != [] {
      WindowIs(cycles[..|cycles| - 1], first, span);
    }
  }

  lemma {:induction false} BeforeGrows(cycles: seq<nat>, s: int, t: int)
    requires s <= t
    ensures CyclesBefore(cycles, s) <= CyclesBefore(cycles, t)
    decreases |cycles|
  {
    if cycles != [] {
      BeforeGrows(cycles[..|cycles| - 1], s, t);
    }
  }

  /** The cycles before a point in time come first. */
  lemma {:induction false} CyclesBeforeIsPrefix(cycles: seq<nat>, time: int)
    requires NonDecreasing(cycles)
    ensures forall i :: 0 <= i < |cycles| ==> (i < CyclesBefore(cycles, time) <==> cycles[i] < time)
    decreases |cycles|
  {
    if cycles != [] {
      CyclesBeforeIsPrefix(cycles[..|cycles| - 1], time);
    }
  }

  /** Of the first n cycles, those before a point in time are the ones of all cycles, if the point is
      not later than the next. */
  lemma {:induction false} BeforeInPrefix(cycles: seq<nat>, n: nat, time: int)
    requires NonDecreasing(cycles) && n <= |cycles|
    ensures CyclesBefore(cycles[..n], time) <= CyclesBefore(cycles, time)
    ensures n < |cycles| && time <= cycles[n] ==> CyclesBefore(cycles[..n], time) == CyclesBefore(cycles, time)
    decreases |cycles|
  {
    if n == |cycles| {
      assert cycles[..n] == cycles;
    } else {
      var m := |cycles| - 1;
      BeforeInPrefix(cycles[..m], n, time);
      assert cycles[..m][..n] == cycles[..n];
    }
  }

  /** What is still in the ring of a reader that takes nothing when the n-th value arrives. */
  function Occupied(cycles: seq<nat>, latency: nat, n: nat): nat
    requires n < |cycles|
  {
    n - CyclesBefore(cycles[..n], cycles[n] - latency)
  }

  ghost predicate EverySlotFree(cycles: seq<nat>, latency: nat, capacity: nat) {
    forall n :: 0 <= n < |cycles| ==> Occupied(cycles, latency, n) < capacity
  }

  /** No window of `span` successive cycles holds more than `capacity` of the cycles. */
  ghost predicate WindowsFit(cycles: seq<nat>, span: nat, capacity: nat) {
    forall first: nat :: WrittenIn(cycles, first, span) <= capacity
  }

  lemma WindowHolds(cycles: seq<nat>, latency: nat, capacity: nat, first: nat)
    requires NonDecreasing(cycles) && EverySlotFree(cycles, latency, capacity)
    ensures WrittenIn(cycles, first, latency + 1) <= capacity
  {
    hide CyclesBefore, WrittenIn, NonDecreasing;
    WindowIs(cycles, first, latency + 1);
    CyclesBeforeIsPrefix(cycles, first + latency + 1);
    CyclesBeforeIsPrefix(cycles, first);
    var n := CyclesBefore(cycles, first + latency + 1) - 1;
    if WrittenIn(cycles, first, latency + 1) > 0 {
      assert Occupied(cycles, latency, n) < capacity;
      BeforeGrows(cycles[..n], cycles[n] - latency, first);
      BeforeInPrefix(cycles, n, first);
    }
  }

  lemma SlotFree(cycles: seq<nat>, latency: nat, capacity: nat, n: nat)
    requires NonDecreasing(cycles) && n < |cycles| && WindowsFit(cycles, latency + 1, capacity)
    ensures Occupied(cycles, latency, n) < capacity
  {
    hide CyclesBefore, WrittenIn, NonDecreasing;
    var first: nat := if cycles[n] >= latency then cycles[n] - latency else 0;
    WindowIs(cycles, first, latency + 1);
    assert WrittenIn(cycles, first, latency + 1) <= capacity;
    CyclesBeforeIsPrefix(cycles, first + latency + 1);
    BeforeInPrefix(cycles, n, first);
    if cycles[n] < latency {
      NothingBefore(cycles[..n], cycles[n] - latency);
      NothingBefore(cycles[..n], 0);
    }
  }

  lemma {:induction false} NothingBefore(cycles: seq<nat>, time: int)
    requires time <= 0
    ensures CyclesBefore(cycles, time) == 0
    decreases |cycles|
  {
    if cycles != [] {
      NothingBefore(cycles[..|cycles| - 1], time);
    }
  }

  lemma SlotsExactly(cycles: seq<nat>, latency: nat, capacity: nat)
    requires NonDecreasing(cycles)
    ensures EverySlotFree(cycles, latency, capacity) <==> WindowsFit(cycles, latency + 1, capacity)
  {
    hide Occupied, WrittenIn, NonDecreasing;
    if EverySlotFree(cycles, latency, capacity) {
      var span := latency + 1;
      forall first: nat
        ensures WrittenIn(cycles, first, span) <= capacity
      {
        WindowHolds(cycles, latency, capacity, first);
      }
    }
    if WindowsFit(cycles, latency + 1, capacity) {
      forall n | 0 <= n < |cycles|
        ensures Occupied(cycles, latency, n) < capacity
      {
        SlotFree(cycles, latency, capacity, n);
      }
    }
  }

  lemma {:induction false} DelayedBefore<T>(writes: seq<Written<T>>, latency: nat, cycle: nat)
    ensures Before(Delayed(writes, latency), cycle) == CyclesBefore(Cycles(writes), cycle - latency)
    decreases |writes|
  {
    if writes != [] {
      var n := |writes| - 1;
      DelayedBefore(writes[..n], latency, cycle);
      assert Delayed(writes, latency)[..n] == Delayed(writes[..n], latency);
      assert Cycles(writes)[..n] == Cycles(writes[..n]);
    }
  }

  /** The queue of a reader that takes nothing has a free slot whenever a value arrives. */
  ghost predicate EveryWriteFits<T>(writes: seq<Written<T>>, latency: nat, capacity: nat) {
    forall n :: 0 <= n < |writes| ==> WriteFits(writes, latency, capacity, n)
  }

  ghost predicate WriteFits<T>(writes: seq<Written<T>>, latency: nat, capacity: nat, n: nat)
    requires n < |writes|
  {
    |Pending(Delayed(writes[..n], latency), writes[n].cycle, 0)| < capacity
  }

  lemma WriteFitsIs<T>(writes: seq<Written<T>>, latency: nat, capacity: nat, n: nat)
    requires n < |writes|
    ensures WriteFits(writes, latency, capacity, n) <==> Occupied(Cycles(writes), latency, n) < capacity
  {
    DelayedBefore(writes[..n], latency, writes[n].cycle);
    assert Cycles(writes)[..n] == Cycles(writes[..n]);
  }

  /** Every write finds a free slot if and only if no window of latency + 1 successive cycles holds
      more writes than the queue has slots. */
  lemma FitsExactly<T>(writes: seq<Written<T>>, latency: nat, capacity: nat)
    requires NonDecreasing(Cycles(writes))
    ensures EveryWriteFits(writes, latency, capacity) <==> WindowsFit(Cycles(writes), latency + 1, capacity)
  {
    hide WriteFits, Occupied, WindowsFit, NonDecreasing, Cycles;
    SlotsExactly(Cycles(writes), latency, capacity);
    forall n | 0 <= n < |writes|
      ensures WriteFits(writes, latency, capacity, n) <==> Occupied(Cycles(writes), latency, n) < capacity
    {
      WriteFitsIs(writes, latency, capacity, n);
    }
  }

  /** At most `bandwidth` writes in every cycle fit into the (latency + 1) * bandwidth slots a reader
      has. */
  ghost predicate Within(cycles: seq<nat>, bandwidth: nat) {
    forall c: nat :: CountOf(cycles, c) <= bandwidth
  }

  lemma {:induction false} WindowGrows(cycles: seq<nat>, first: nat, span: nat)
    ensures WrittenIn(cycles, first, 0) == 0
    ensures WrittenIn(cycles, first, span + 1) == WrittenIn(cycles, first, span) + CountOf(cycles, first + span)
    decreases |cycles|
  {
    if cycles != [] {
      WindowGrows(cycles[..|cycles| - 1], first, span);
    }
  }

  lemma {:induction false} WindowBound(cycles: seq<nat>, bandwidth: nat, first: nat, span: nat)
    requires Within(cycles, bandwidth)
    ensures WrittenIn(cycles, first, span) <= span * bandwidth
    decreases span
  {
    hide WrittenIn, CountOf;
    WindowGrows(cycles, first, 0);
    if span > 0 {
      WindowGrows(cycles, first, span - 1);
      WindowBound(cycles, bandwidth, first, span - 1);
      assert CountOf(cycles, first + (span - 1)) <= bandwidth;
      assert (span - 1) * bandwidth + bandwidth == span * bandwidth;
    }
  }

  lemma WithinFits(cycles: seq<nat>, latency: nat, bandwidth: nat)
    requires Within(cycles, bandwidth)
    ensures WindowsFit(cycles, latency + 1, (latency + 1) * bandwidth)
  {
    hide WrittenIn, Within;
    var span := latency + 1;
    forall first: nat
      ensures WrittenIn(cycles, first, span) <= span * bandwidth
    {
      WindowBound(cycles, bandwidth, first, span);
    }
  }

  // ---- The write counter ----

  /** The counter restarts at zero in a new cycle and counts up in the same one. */
  function CounterAfter(last: nat, counter: nat, cycle: nat): nat {
    if last == cycle then counter + 1 else 0
  }

  datatype WriteState = WriteState(last: nat, counter: nat)

  /** The state of the counter after writes at the given cycles. */
  function Counted(cycles: seq<nat>): WriteState {
    if cycles == [] then WriteState(0, 0) else
      var before := Counted(cycles[..|cycles| - 1]);
      var cycle := cycles[|cycles| - 1];
      WriteState(cycle, CounterAfter(before.last, before.counter, cycle))
  }

  /** No write is refused as an overload. */
  ghost predicate Accepted(cycles: seq<nat>, bandwidth: nat) {
    forall n :: 0 < n <= |cycles| ==> Counted(cycles[..n]).counter <= bandwidth
  }

  function CountOf(cycles: seq<nat>, cycle: nat): nat {
    if cycles == [] then 0 else
      CountOf(cycles[..|cycles| - 1], cycle) + if cycles[|cycles| - 1] == cycle then 1 else 0
  }

  /** The counter is one behind the number of writes, except in cycle 0 where the port starts. */
  lemma {:induction false} CounterIs(cycles: seq<nat>)
    requires NonDecreasing(cycles)
    ensures Counted(cycles).last == if cycles == [] then 0 else cycles[|cycles| - 1]
    ensures Counted(cycles).counter + (if Counted(cycles).last > 0 then 1 else 0)
         == CountOf(cycles, Counted(cycles).last)
    ensures forall c: nat :: c > Counted(cycles).last ==> CountOf(cycles, c) == 0
  {
    if cycles != [] {
      var n := |cycles| - 1;
      CounterIs(cycles[..n]);
    }
  }

  lemma {:induction false} CountGrows(cycles: seq<nat>, n: nat, cycle: nat)
    requires n <= |cycles|
    ensures CountOf(cycles[..n], cycle) <= CountOf(cycles, cycle)
    decreases |cycles|
  {
    var m := |cycles| - 1;
    if n <= m {
      CountGrows(cycles[..m], n, cycle);
      assert cycles[..m][..n] == cycles[..n];
    } else {
      assert cycles[..n] == cycles;
    }
  }

  /** One write more than the bandwidth in every cycle but cycle 0. */
  ghost predicate AlmostWithin(cycles: seq<nat>, bandwidth: nat) {
    forall c: nat :: CountOf(cycles, c) <= bandwidth + if c > 0 then 1 else 0
  }

  /** The overload check lets exactly those runs pass, not only the ones within the bandwidth. */
  lemma AcceptedExactly(cycles: seq<nat>, bandwidth: nat)
    requires NonDecreasing(cycles)
    ensures Accepted(cycles, bandwidth) <==> AlmostWithin(cycles, bandwidth)
  {
    if Accepted(cycles, bandwidth) {
      forall c: nat ensures CountOf(cycles, c) <= bandwidth + if c > 0 then 1 else 0 {
        if CountOf(cycles, c) > 0 {
          var n := LastOf(cycles, c);
          CounterIs(cycles[..n]);
          assert Counted(cycles[..n]).counter <= bandwidth;
        }
      }
    }
    if AlmostWithin(cycles, bandwidth) {
      forall n | 0 < n <= |cycles| ensures Counted(cycles[..n]).counter <= bandwidth {
        var c := cycles[n - 1];
        CounterIs(cycles[..n]);
        CountGrows(cycles, n, c);
        assert CountOf(cycles, c) <= bandwidth + if c > 0 then 1 else 0;
      }
    }
  }

  lemma {:induction false} LastOf(cycles: seq<nat>, cycle: nat) returns (n: nat)
    requires NonDecreasing(cycles) && CountOf(cycles, cycle) > 0
    ensures 0 < n <= |cycles| && cycles[n - 1] == cycle && CountOf(cycles[..n], cycle) == CountOf(cycles, cycle)
    decreases |cycles|
  {
    var m := |cycles| - 1;
    if cycles[m] == cycle {
      n := |cycles|;
      assert cycles[..n] == cycles;
    } else {
      n := LastOf(cycles[..m], cycle);
      assert cycles[..m][..n] == cycles[..n];
    }
  }

  lemma NoWrites<T>()
    ensures NonDecreasing(Cycles<T>([])) && Counted(Cycles<T>([])) == WriteState(0, 0)
  {
  }

  lemma WriteCounted<T>(writes: seq<Written<T>>, w: Written<T>)
    requires NonDecreasing(Cycles(writes)) && Counted(Cycles(writes)).last <= w.cycle
    ensures NonDecreasing(Cycles(writes + [w]))
    ensures Counted(Cycles(writes + [w]))
         == WriteState(w.cycle, CounterAfter(Counted(Cycles(writes)).last, Counted(Cycles(writes)).counter, w.cycle))
  {
    var cycles := Cycles(writes);
    CounterIs(cycles);
    assert Cycles(writes + [w]) == cycles + [w.cycle];
    assert (cycles + [w.cycle])[..|cycles|] == cycles;
    assert forall i :: 0 <= i < |cycles| ==> cycles[i] <= cycles[|cycles| - 1];
  }

  /** A reader has a free slot for a write that fits with those before, whatever it has read. */
  lemma RoomInWindow<T>(writes: seq<Written<T>>, w: Written<T>, latency: nat, capacity: nat, taken: nat)
    requires NonDecreasing(Cycles(writes + [w])) && WindowsFit(Cycles(writes + [w]), latency + 1, capacity)
    requires taken <= DueCount(Delayed(writes, latency), w.cycle)
    ensures Room(Delayed(writes, latency), w.cycle, taken, capacity)
  {
    hide WindowsFit, NonDecreasing, DueCount, Before;
    FitsExactly(writes + [w], latency, capacity);
    assert WriteFits(writes + [w], latency, capacity, |writes|);
    assert (writes + [w])[..|writes|] == writes && (writes + [w])[|writes|] == w;
    PendingShorter(Delayed(writes, latency), w.cycle, taken);
  }

  lemma PendingShorter<T>(log: seq<Entry<T>>, cycle: nat, taken: nat)
    requires taken <= DueCount(log, cycle)
    ensures |Pending(log, cycle, taken)| <= |Pending(log, cycle, 0)|
  {
  }

  lemma {:induction false} ValuesCounted<T>(writes: seq<Written<T>>, cycle: nat)
    ensures |ValuesAt(writes, cycle)| == CountOf(Cycles(writes), cycle)
    decreases |writes|
  {
    if writes != [] {
      var n := |writes| - 1;
      ValuesCounted(writes[..n], cycle);
      assert Cycles(writes)[..n] == Cycles(writes[..n]);
    }
  }

  lemma ValuesAppended<T>(writes: seq<Written<T>>, w: Written<T>, cycle: nat)
    ensures ValuesAt(writes + [w], cycle) == ValuesAt(writes, cycle) + if w.cycle == cycle then [w.value] else []
  {
    assert (writes + [w])[..|writes|] == writes;
  }

  lemma WithinKept<T>(writes: seq<Written<T>>, w: Written<T>, bandwidth: nat)
    requires Within(Cycles(writes), bandwidth) && |ValuesAt(writes, w.cycle)| < bandwidth
    ensures Within(Cycles(writes + [w]), bandwidth)
  {
    hide ValuesAt, CountOf, Cycles;
    forall c: nat
      ensures CountOf(Cycles(writes + [w]), c) <= bandwidth
    {
      ValuesCounted(writes, c);
      ValuesCounted(writes + [w], c);
      ValuesAppended(writes, w, c);
      assert CountOf(Cycles(writes), c) <= bandwidth;
    }
  }

  /** Within the bandwidth, a write passes the check and finds a free slot. */
  lemma WithinIsServed<T>(writes: seq<Written<T>>, w: Written<T>, bandwidth: nat, latency: nat, taken: nat)
    requires NonDecreasing(Cycles(writes)) && Counted(Cycles(writes)).last <= w.cycle
    requires Within(Cycles(writes), bandwidth) && |ValuesAt(writes, w.cycle)| < bandwidth
    requires taken <= DueCount(Delayed(writes, latency), w.cycle)
    ensures Within(Cycles(writes + [w]), bandwidth)
    ensures CounterAfter(Counted(Cycles(writes)).last, Counted(Cycles(writes)).counter, w.cycle) <= bandwidth
    ensures Room(Delayed(writes, latency), w.cycle, taken, (latency + 1) * bandwidth)
  {
    hide DueCount, Room, CounterAfter, NonDecreasing, ValuesAt, Counted, CountOf, Cycles, Delayed, Within;
    WriteCounted(writes, w);
    WithinKept(writes, w, bandwidth);
    WithinFits(Cycles(writes + [w]), latency, bandwidth);
    var capacity := (latency + 1) * bandwidth;
    RoomInWindow(writes, w, latency, capacity, taken);
    CounterIs(Cycles(writes + [w]));
    CountBound(Cycles(writes + [w]), bandwidth, w.cycle);
  }

  lemma CountBound(cycles: seq<nat>, bandwidth: nat, c: nat)
    requires Within(cycles, bandwidth)
    ensures CountOf(cycles, c) <= bandwidth
  {
  }

  // ---- The two differ ----

  /** One write more than the bandwidth in each of the cycles 1 to `span`. */
  function Burst(bandwidth: nat, span: nat): seq<nat> {
    if span == 0 then [] else Burst(bandwidth, span - 1) + seq(bandwidth + 1, _ => span)
  }

  lemma {:induction false} CountRepeated(cycles: seq<nat>, x: nat, k: nat, c: nat)
    ensures CountOf(cycles + seq(k, _ => x), c) == CountOf(cycles, c) + if x == c then k else 0
    decreases k
  {
    if k == 0 {
      assert cycles + seq(k, _ => x) == cycles;
    } else {
      CountRepeated(cycles, x, k - 1, c);
      assert (cycles + seq(k, _ => x))[..|cycles| + k - 1] == cycles + seq(k - 1, _ => x);
    }
  }

  lemma {:induction false} BurstCount(bandwidth: nat, span: nat, c: nat)
    ensures CountOf(Burst(bandwidth, span), c) == if 1 <= c <= span then bandwidth + 1 else 0
  {
    hide CountOf;
    if span == 0 {
      NothingCounted(c);
    } else {
      BurstCount(bandwidth, span - 1, c);
      CountRepeated(Burst(bandwidth, span - 1), span, bandwidth + 1, c);
    }
  }

  lemma NothingCounted(c: nat)
    ensures CountOf([], c) == 0
  {
  }

  lemma {:induction false} BurstSorted(bandwidth: nat, span: nat)
    ensures var cycles := Burst(bandwidth, span);
            && NonDecreasing(cycles) && |cycles| == span * (bandwidth + 1)
            && forall i :: 0 <= i < |cycles| ==> 1 <= cycles[i] <= span
  {
    hide NonDecreasing;
    if span == 0 {
      SingleSorted(Burst(bandwidth, span));
    } else {
      BurstSorted(bandwidth, span - 1);
      RepeatedSorted(Burst(bandwidth, span - 1), span, bandwidth + 1);
      assert (span - 1) * (bandwidth + 1) + (bandwidth + 1) == span * (bandwidth + 1);
    }
  }

  lemma SingleSorted(cycles: seq<nat>)
    requires |cycles| <= 1
    ensures NonDecreasing(cycles)
  {
  }

  lemma RepeatedSorted(cycles: seq<nat>, x: nat, k: nat)
    requires NonDecreasing(cycles) && forall i :: 0 <= i < |cycles| ==> cycles[i] <= x
    ensures NonDecreasing(cycles + seq(k, _ => x))
  {
  }

  lemma {:induction false} AllWrittenIn(cycles: seq<nat>, first: nat, span: nat)
    requires forall i :: 0 <= i < |cycles| ==> first <= cycles[i] < first + span
    ensures WrittenIn(cycles, first, span) == |cycles|
    decreases |cycles|
  {
    if cycles != [] {
      AllWrittenIn(cycles[..|cycles| - 1], first, span);
    }
  }

  /** Whatever the latency and the bandwidth, there are writes that pass the check and need more
      slots than the queue has. */
  lemma AcceptedOverrun<T>(writes: seq<Written<T>>, latency: nat, bandwidth: nat)
    requires Cycles(writes) == Burst(bandwidth, latency + 1)
    ensures NonDecreasing(Cycles(writes)) && Accepted(Cycles(writes), bandwidth)
    ensures !EveryWriteFits(writes, latency, (latency + 1) * bandwidth)
  {
    hide Burst, Cycles, Accepted, WriteFits, WrittenIn, NonDecreasing;
    var cycles, span := Cycles(writes), latency + 1;
    BurstSorted(bandwidth, span);
    forall c: nat
      ensures CountOf(cycles, c) <= bandwidth + if c > 0 then 1 else 0
    {
      BurstCount(bandwidth, span, c);
    }
    AcceptedExactly(cycles, bandwidth);
    FitsExactly(writes, latency, span * bandwidth);
    AllWrittenIn(cycles, 1, span);
    assert span * (bandwidth + 1) == span * bandwidth + span;
    assert WrittenIn(cycles, 1, span) > span * bandwidth;
  }

  /** The smallest: at bandwidth 1 and latency 1, two writes in each of the cycles 1 and 2. */
  lemma SmallestOverrun<T>(v: T)
    ensures var writes := [Written(v, 1), Written(v, 1), Written(v, 2), Written(v, 2)];
            Accepted(Cycles(writes), 1) && !EveryWriteFits(writes, 1, (1 + 1) * 1)
  {
    var writes := [Written(v, 1), Written(v, 1), Written(v, 2), Written(v, 2)];
    assert Cycles(writes) == Burst(1, 2) by {
      assert Burst(1, 1) == [1, 1];
      assert Burst(1, 2) == [1, 1, 2, 2];
    }
    AcceptedOverrun(writes, 1, 1);
  }
}
