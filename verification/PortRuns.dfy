/** A port between two stages over a whole run. However the two are ordered within a cycle, and
    whichever cycles the reader skips, a port of positive latency is a line of delays: what the
    reader sees is what was written `latency` cycles before. */
module PortRuns {
  import opened PortTiming
  import opened PortCapacity
  import opened PortObjects

  /** What happens at a port in one cycle: the values written, whether before or after the reader's
      turn, and whether the reader looks at the port at all. */
  datatype Use<T> = Use(written: seq<T>, writerFirst: bool, looks: bool)

  /** A line of delays after one more cycle. */
  function Shift<T>(line: seq<T>, x: T): (next: seq<T>)
    requires line != []
    ensures |next| == |line|
  {
    line[1..] + [x]
  }

  /** The line at the start of cycle `c`, empty at the start of the run. */
  function LineAt<T>(uses: seq<Use<T>>, latency: nat, c: nat): (line: seq<seq<T>>)
    requires latency > 0 && c <= |uses|
    ensures |line| == latency
  {
    if c == 0 then seq(latency, _ => []) else Shift(LineAt(uses, latency, c - 1), uses[c - 1].written)
  }

  lemma {:induction false} LineIs<T>(uses: seq<Use<T>>, latency: nat, c: nat, k: nat)
    requires latency > 0 && c <= |uses| && k < latency
    ensures LineAt(uses, latency, c)[k] == if c + k >= latency then uses[c + k - latency].written else []
    decreases c
  {
    if c > 0 && k + 1 < latency {
      LineIs(uses, latency, c - 1, k + 1);
    }
  }

  /** One writer and its only reader. */
  ghost predicate Joined<T>(r: ReadPort<T>, w: WritePort<T>)
    reads w, w.destinations, w.Queues(), w.Arenas()
  {
    w.destinations == [r] && w.Valid()
  }

  lemma JoinedReader<T>(r: ReadPort<T>, w: WritePort<T>)
    requires Joined(r, w)
    ensures r.Valid() && r.log == Delayed(w.writes, r.latency) && r.bandwidth == w.bandwidth
    ensures NonDecreasing(Cycles(w.writes))
    ensures w.Queues() == {r.queue} && w.Arenas() == {r.queue.arena}
  {
    assert w.Reader(0);
  }

  /** Reads in a cycle until nothing is ready. */
  method ReadAll<T>(r: ReadPort<T>, ghost w: WritePort<T>, cycle: nat) returns (got: seq<T>)
    requires Joined(r, w) && r.lastCycle <= cycle && r.TakenAt(cycle) == 0
    modifies r, r.queue, r.queue.arena
    ensures Joined(r, w) && r.lastCycle == cycle && w.writes == old(w.writes)
    ensures got == DueAt(Delayed(w.writes, r.latency), cycle)
  {
    hide ReadPort.Valid, PortQueue.Valid, DueAt, NonDecreasing, Delayed;
    JoinedReader(r, w);
    got := [];
    var ready := r.IsReady(cycle);
    while ready
      invariant r.Valid() && r.log == old(r.log) && r.lastCycle == cycle && r.taken == |got|
      invariant |got| <= |DueAt(r.log, cycle)| && got == DueAt(r.log, cycle)[..|got|]
      invariant ready <==> |got| < |DueAt(r.log, cycle)|
      decreases |DueAt(r.log, cycle)| - |got|
    {
      var value := r.Read(cycle);
      got := got + [value.value];
      ready := r.IsReady(cycle);
    }
    assert w.Reader(0);
  }

  ghost predicate WrittenSoFar<T>(writes: seq<Written<T>>, uses: seq<Use<T>>, c: nat)
    requires c <= |uses|
  {
    forall d: nat :: ValuesAt(writes, d) == if d < c then uses[d].written else []
  }

  /** Writes some values in a cycle, one after the other. */
  method WriteAll<T>(r: ReadPort<T>, w: WritePort<T>, values: seq<T>, cycle: nat)
    requires Joined(r, w) && r.lastCycle <= cycle && w.lastCycle <= cycle
    requires Within(Cycles(w.writes), w.bandwidth)
    requires |ValuesAt(w.writes, cycle)| + |values| <= w.bandwidth
    modifies w, r, r.queue, r.queue.arena
    ensures Joined(r, w) && r.lastCycle <= cycle && w.lastCycle <= cycle
    ensures r.TakenAt(cycle) == old(r.TakenAt(cycle))
    ensures Within(Cycles(w.writes), w.bandwidth)
    ensures forall d: nat :: ValuesAt(w.writes, d) == old(ValuesAt(w.writes, d)) + if d == cycle then values else []
  {
    hide ReadPort.Valid, NonDecreasing, Delayed, Cycles, ValuesAt, Counted, CounterAfter, Within, DueCount, Room;
    var i := 0;
    while i < |values|
      invariant 0 <= i <= |values| && Joined(r, w) && r.lastCycle <= cycle && w.lastCycle <= cycle
      invariant r.TakenAt(cycle) == old(r.TakenAt(cycle))
      invariant Within(Cycles(w.writes), w.bandwidth)
      invariant forall d: nat ::
        ValuesAt(w.writes, d) == old(ValuesAt(w.writes, d)) + if d == cycle then values[..i] else []
    {
      WriteOne(r, w, values[i], cycle);
      i := i + 1;
    }
  }

  method WriteOne<T>(r: ReadPort<T>, w: WritePort<T>, value: T, cycle: nat)
    requires Joined(r, w) && r.lastCycle <= cycle && w.lastCycle <= cycle
    requires Within(Cycles(w.writes), w.bandwidth) && |ValuesAt(w.writes, cycle)| < w.bandwidth
    modifies w, r, r.queue, r.queue.arena
    ensures Joined(r, w) && r.lastCycle == w.lastCycle == cycle
    ensures r.TakenAt(cycle) == old(r.TakenAt(cycle))
    ensures Within(Cycles(w.writes), w.bandwidth)
    ensures forall d: nat :: ValuesAt(w.writes, d) == old(ValuesAt(w.writes, d)) + if d == cycle then [value] else []
  {
    hide NonDecreasing, Delayed, Cycles, ValuesAt, Counted, CounterAfter, Within, DueCount, Room;
    JoinedReader(r, w);
    WithinIsServed(w.writes, Written(value, cycle), w.bandwidth, r.latency, r.TakenAt(cycle));
    forall d: nat
      ensures ValuesAt(w.writes + [Written(value, cycle)], d)
           == ValuesAt(w.writes, d) + if d == cycle then [value] else []
    {
      ValuesAppended(w.writes, Written(value, cycle), d);
    }
    var overloaded := w.Write(value, cycle);
  }

  /** The whole run. At most `bandwidth` values are written in a cycle; the writer and the reader come
      in either order, and the reader may skip a cycle. What it sees is the front of the line. */
  method RunPort<T>(latency: nat, bandwidth: nat, uses: seq<Use<T>>) returns (seen: seq<seq<T>>)
    requires latency > 0 && bandwidth > 0
    requires forall c :: 0 <= c < |uses| ==> |uses[c].written| <= bandwidth
    ensures |seen| == |uses|
    ensures forall c :: 0 <= c < |uses| ==>
              seen[c] == if uses[c].looks then LineAt(uses, latency, c)[0] else []
  {
    hide Within, Cycles, ValuesAt, Delayed, DueAt, ReadPort.Valid, NonDecreasing, LineAt;
    var r := new ReadPort<T>(latency, bandwidth);
    var w := new WritePort<T>([r], bandwidth);
    NothingWritten<T>(uses, bandwidth);
    seen := [];
    while |seen| < |uses|
      invariant |seen| <= |uses| && Joined(r, w) && w.bandwidth == bandwidth && r.latency == latency
      invariant fresh(r) && fresh(w) && fresh(r.queue) && fresh(r.queue.arena)
      invariant r.lastCycle <= |seen| && w.lastCycle <= |seen| && r.TakenAt(|seen|) == 0
      invariant Within(Cycles(w.writes), bandwidth) && WrittenSoFar(w.writes, uses, |seen|)
      invariant forall c :: 0 <= c < |seen| ==> seen[c] == if uses[c].looks then LineAt(uses, latency, c)[0] else []
    {
      var got := RunCycle(r, w, uses, |seen|);
      seen := seen + [got];
    }
  }

  lemma NothingWritten<T>(uses: seq<Use<T>>, bandwidth: nat)
    ensures Within(Cycles<T>([]), bandwidth) && WrittenSoFar<T>([], uses, 0)
  {
  }

  method RunCycle<T>(r: ReadPort<T>, w: WritePort<T>, uses: seq<Use<T>>, c: nat) returns (got: seq<T>)
    requires Joined(r, w) && c < |uses| && r.latency > 0 && |uses[c].written| <= w.bandwidth
    requires r.lastCycle <= c && w.lastCycle <= c && r.TakenAt(c) == 0
    requires Within(Cycles(w.writes), w.bandwidth) && WrittenSoFar(w.writes, uses, c)
    modifies w, r, r.queue, r.queue.arena
    ensures Joined(r, w) && r.lastCycle <= c && w.lastCycle <= c
    ensures Within(Cycles(w.writes), w.bandwidth) && WrittenSoFar(w.writes, uses, c + 1)
    ensures got == if uses[c].looks then LineAt(uses, r.latency, c)[0] else []
  {
    hide Within, Cycles, ValuesAt, Delayed, DueAt, ReadPort.Valid, NonDecreasing, LineAt;
    got := [];
    var use := uses[c];
    if use.writerFirst {
      WriteAll(r, w, use.written, c);
    }
    if use.looks {
      FrontOfLine(w.writes, uses, r.latency, c);
      got := ReadAll(r, w, c);
    }
    if !use.writerFirst {
      WriteAll(r, w, use.written, c);
    }
  }

  /** What was written before the last cycle decides what is due, whether or not that cycle has
      written yet. */
  lemma FrontOfLine<T>(writes: seq<Written<T>>, uses: seq<Use<T>>, latency: nat, c: nat)
    requires latency > 0 && c < |uses|
    requires forall d: nat :: d < c ==> ValuesAt(writes, d) == uses[d].written
    ensures DueAt(Delayed(writes, latency), c) == LineAt(uses, latency, c)[0]
  {
    hide ValuesAt, DueAt, Delayed, LineAt;
    LineIs(uses, latency, c, 0);
    if c >= latency {
      DueAreWritten(writes, latency, c - latency);
    } else {
      DueAreWritten(writes, latency, 0);
    }
  }
}
