/** When and in which order a run writes back, what a misprediction discards, and what the scoreboard
    follows: for any long-unit latency, any initial state and any stream of instructions from fetch. */
module Timing {
  import opened Operations
  import opened Options
  import opened Scoreboard
  import opened FuncSim
  import opened Pipeline
  import opened Timeline
  import opened Invariant
  import opened Scheduling
  import opened StepData
  import opened StepStages
  import opened StepIssue
  import opened Flow

  /** The flow of a run, as the theorems use it. */
  lemma FlowIn(l: LongLatency, a: Arch, inputs: seq<Option<Instr>>, states: seq<Core>, n: nat)
      returns (s: Core, w: Work)
    requires IsRun(l, a, inputs, states) && n <= |inputs|
    ensures |states| == |inputs| + 1 && s == states[n] && w == WorkOf(states)
    ensures FlowAt(s, Surviving(s), w) && s.longLatency == l && s.cycle == n && s.isa == a.isa && s.Shaped()
    ensures RecordOk(s, Surviving(s)) && CommitOk(s, Surviving(s), w) && AccessOk(s, Surviving(s), w)
    ensures WritebackInputsOk(s, Surviving(s), w) && InOrder(Surviving(s), l) && |Surviving(s)| == n
    ensures !s.flushAll ==> LongUnitOk(s, Surviving(s), w)
  {
    hide *;
    ReachableFlow(l, a, inputs, states, n);
    s, w := states[n], WorkOf(states);
    FlowParts(s, Surviving(s), w);
  }

  // Timing and order

  /** The write-back of the survivor issued at `t`. */
  function WritebackOf(w: Work, h: History, t: int, l: LongLatency): Retirement
    requires Alive(h, t)
  {
    Retirement(Finished(w, h, t), WritebackCycle(h, t, l))
  }

  lemma RetiredStep(w: Work, h: History, n: int, l: LongLatency)
    requires n > 0
    ensures var before := RetiredUpto(w, h, n - 1, l);
            RetiredUpto(w, h, n, l) == if Alive(h, n - 1) then before + [WritebackOf(w, h, n - 1, l)] else before
  {
    hide RetiredUpto, Finished, WritebackCycle;
    RetiredUnfolds(w, h, n, l);
  }

  /** The record `r` against the history: which write-backs it holds, and in what order. */
  ghost predicate Holds(r: seq<Retirement>, w: Work, h: History, n: int, l: LongLatency) {
    && (forall k :: 0 <= k < |r| ==> IsWritebackOf(r[k], w, h, r[k].op.born, l) && r[k].op.born < n)
    && (forall j, k :: 0 <= j < k < |r| ==> r[j].op.born < r[k].op.born)
    && (forall t :: t < n && Alive(h, t) ==> exists k :: 0 <= k < |r| && r[k].op.born == t)
  }

  ghost predicate IsWritebackOf(x: Retirement, w: Work, h: History, t: nat, l: LongLatency) {
    Alive(h, t) && x.op == Finished(w, h, t) && x.cycle == WritebackCycle(h, t, l)
  }

  lemma HoldsOneMore(r: seq<Retirement>, x: Retirement, w: Work, h: History, n: nat, l: LongLatency)
    requires Holds(r, w, h, n, l) && IsWritebackOf(x, w, h, n, l) && x.op.born == n
    ensures Holds(r + [x], w, h, n + 1, l)
  {
    hide IsWritebackOf;
    var r' := r + [x];
    forall t | t < n + 1 && Alive(h, t)
      ensures exists k :: 0 <= k < |r'| && r'[k].op.born == t
    {
      if t == n {
        assert r'[|r|].op.born == t;
      } else {
        var k :| 0 <= k < |r| && r[k].op.born == t;
        assert r'[k].op.born == t;
      }
    }
  }

  lemma HoldsSame(r: seq<Retirement>, w: Work, h: History, n: nat, l: LongLatency)
    requires Holds(r, w, h, n, l) && !Alive(h, n)
    ensures Holds(r, w, h, n + 1, l)
  {
    hide IsWritebackOf;
  }

  lemma HoldsNothing(w: Work, h: History, n: int, l: LongLatency)
    requires n <= 0
    ensures Holds([], w, h, n, l)
  {
    hide IsWritebackOf;
  }

  lemma {:induction false} RetiredMembers(w: Work, h: History, n: int, l: LongLatency)
    ensures Holds(RetiredUpto(w, h, n, l), w, h, n, l)
    decreases n
  {
    hide Finished, WritebackCycle, RetiredUpto, Holds, WritebackOf, IsWritebackOf, Alive;
    if n <= 0 {
      NothingRetired(w, h, n, l);
      HoldsNothing(w, h, n, l);
    } else {
      RetiredMembers(w, h, n - 1, l);
      RetiredStep(w, h, n, l);
      if Alive(h, n - 1) {
        WritebackOfHolds(w, h, n - 1, l);
        HoldsOneMore(RetiredUpto(w, h, n - 1, l), WritebackOf(w, h, n - 1, l), w, h, n - 1, l);
      } else {
        HoldsSame(RetiredUpto(w, h, n - 1, l), w, h, n - 1, l);
      }
    }
  }

  lemma WritebackOfHolds(w: Work, h: History, t: nat, l: LongLatency)
    requires Alive(h, t)
    ensures IsWritebackOf(WritebackOf(w, h, t, l), w, h, t, l) && WritebackOf(w, h, t, l).op.born == t
  {
    hide Made, Finished;
    BornThen(w, h, t);
  }

  /** Is the instruction issued in cycle `t` in the record of write-backs? */
  ghost predicate WrittenBackAlready(s: Core, t: nat) {
    exists k :: 0 <= k < |s.retired| && s.retired[k].op.born == t
  }

  /** The k-th write-back of the record happened exactly latency + 1 cycles after the issue. */
  ghost predicate OnTime(s: Core, k: nat)
    requires k < |s.retired|
  {
    var x := s.retired[k];
    && Slot(s.issued, x.op.born) == Some(x.op.instr)
    && x.cycle == x.op.born + Latency(x.op.instr, s.longLatency) + 1
  }

  lemma RetiredOnTime(s: Core, h: History, w: Work, n: int, k: nat)
    requires Holds(s.retired, w, h, n, s.longLatency) && h == Surviving(s) && k < |s.retired|
    ensures OnTime(s, k) && Alive(h, s.retired[k].op.born)
    ensures s.retired[k].cycle == WritebackCycle(h, s.retired[k].op.born, s.longLatency)
  {
    hide Surviving, Made, Finished;
    var x := s.retired[k];
    assert IsWritebackOf(x, w, h, x.op.born, s.longLatency);
    BornThen(w, h, x.op.born);
    SurvivingSlot(s, x.op.born);
  }

  lemma RetiredInOrder(s: Core, h: History, w: Work, n: int, j: nat, k: nat)
    requires Holds(s.retired, w, h, n, s.longLatency) && h == Surviving(s) && j < k < |s.retired|
    requires InOrder(h, s.longLatency)
    ensures s.retired[j].op.born < s.retired[k].op.born && s.retired[j].cycle < s.retired[k].cycle
  {
    hide Surviving, WritebackCycle, Alive;
    RetiredOnTime(s, h, w, n, j);
    RetiredOnTime(s, h, w, n, k);
  }

  lemma RetiredWhenDue(s: Core, h: History, w: Work, n: int, t: nat)
    requires Holds(s.retired, w, h, n, s.longLatency) && h == Surviving(s)
    requires forall u :: Alive(h, u) ==> (u < n <==> WritebackCycle(h, u, s.longLatency) < s.cycle)
    requires Slot(s.issued, t).Some? && !TakenBack(s, t)
    ensures WrittenBackAlready(s, t) <==> t + Latency(Slot(s.issued, t).value, s.longLatency) + 1 < s.cycle
  {
    hide Surviving, IsWritebackOf, TakenBack, Latency;
    SurvivingSlot(s, t);
    assert Alive(h, t);
  }

  lemma TimingAt(s: Core, h: History, w: Work)
    requires RecordOk(s, h) && CommitOk(s, h, w)
    ensures forall t: nat :: Slot(s.issued, t).Some? && !TakenBack(s, t) ==>
              (WrittenBackAlready(s, t) <==> t + Latency(Slot(s.issued, t).value, s.longLatency) + 1 < s.cycle)
    ensures forall k :: 0 <= k < |s.retired| ==> OnTime(s, k)
    ensures forall j, k :: 0 <= j < k < |s.retired| ==>
              s.retired[j].op.born < s.retired[k].op.born && s.retired[j].cycle < s.retired[k].cycle
  {
    hide Surviving, RetiredUpto, OnTime, Holds, Latency, WrittenBackAlready, TakenBack, Committed;
    var n := Committed(s);
    RetiredMembers(w, h, n, s.longLatency);
    forall t: nat | Slot(s.issued, t).Some? && !TakenBack(s, t)
      ensures WrittenBackAlready(s, t) <==> t + Latency(Slot(s.issued, t).value, s.longLatency) + 1 < s.cycle
    {
      RetiredWhenDue(s, h, w, n, t);
    }
    forall k | 0 <= k < |s.retired|
      ensures OnTime(s, k)
    {
      RetiredOnTime(s, h, w, n, k);
    }
    forall j, k | 0 <= j < k < |s.retired|
      ensures s.retired[j].op.born < s.retired[k].op.born && s.retired[j].cycle < s.retired[k].cycle
    {
      RetiredInOrder(s, h, w, n, j, k);
    }
  }

  /** An instruction issued in cycle t and not taken back is written back in cycle t + latency + 1,
      neither earlier nor later; write-backs happen in issue order, one a cycle, so that the three
      inputs of write-back never hold two instructions. */
  lemma WritebackTiming(l: LongLatency, a: Arch, inputs: seq<Option<Instr>>, states: seq<Core>, n: nat)
    requires IsRun(l, a, inputs, states) && n <= |inputs|
    ensures var s := states[n];
            && (forall t: nat :: Slot(s.issued, t).Some? && !TakenBack(s, t) ==>
                (WrittenBackAlready(s, t) <==> t + Latency(Slot(s.issued, t).value, l) + 1 < n))
            && (forall k :: 0 <= k < |s.retired| ==> OnTime(s, k))
            && (forall j, k :: 0 <= j < k < |s.retired| ==>
                s.retired[j].op.born < s.retired[k].op.born && s.retired[j].cycle < s.retired[k].cycle)
            && |ReadInstructions(s)| <= 1 && |s.fromExecute| <= 1
  {
    hide *;
    var s, w := FlowIn(l, a, inputs, states, n);
    TimingAt(s, Surviving(s), w);
    var p := WritebackReads(s, Surviving(s), w);
  }

  // Wrong paths

  lemma {:induction false} AccessedMembers(w: Work, h: History, n: int, x: Op)
    requires x in AccessedUpto(w, h, n)
    ensures x.born < n && MemAt(h, x.born) && x == Finished(w, h, x.born)
    decreases n
  {
    if x in AccessedUpto(w, h, n - 1) {
      AccessedMembers(w, h, n - 1, x);
    }
  }

  /** What a cycle of a run adds to the record. */
  lemma CycleRecord(inputs: seq<Option<Instr>>, states: seq<Core>, l: LongLatency, a: Arch, k: nat)
    requires IsRun(l, a, inputs, states) && k < |inputs|
    ensures var s, s' := states[k], states[k + 1];
            && s'.cycle == s.cycle + 1
            && s'.issued == s.issued + [IssuedInstr(s, inputs[k])]
            && s'.misses == (if s'.flushAll then s.misses + {s.cycle} else s.misses)
            && (s.flushAll ==> IssuedInstr(s, inputs[k]) == None)
  {
    hide Next, Decode;
    assert IsCycle(inputs, states, k);
    NextRecord(states[k], inputs[k]);
    FlushedDecodeIssuesNothing(states[k], inputs[k]);
  }

  lemma NextRecord(s: Core, fetched: Option<Instr>)
    requires s.Shaped()
    ensures var s' := Next(s, fetched);
            && s'.cycle == s.cycle + 1 && s'.flushAll == Branch(s).miss
            && s'.issued == s.issued + [IssuedInstr(s, fetched)]
            && s'.misses == (if Branch(s).miss then s.misses + {s.cycle} else s.misses)
  {
  }

  lemma FlushedDecodeIssuesNothing(s: Core, fetched: Option<Instr>)
    ensures s.flushAll ==> IssuedInstr(s, fetched) == None
  {
  }

  lemma ResetRecord(inputs: seq<Option<Instr>>, states: seq<Core>, l: LongLatency, a: Arch)
    requires IsRun(l, a, inputs, states)
    ensures states[0].cycle == 0 && states[0].issued == [] && states[0].misses == {}
  {
  }

  /** A misprediction found in the cycle just past leaves the flush signal up; and the cycle after a
      misprediction issues nothing. */
  ghost predicate QuietAfterMisses(s: Core, n: nat) {
    && s.cycle == n && |s.issued| == n && (forall f :: f in s.misses ==> f < n)
    && (n > 0 && n - 1 in s.misses ==> s.flushAll)
    && (forall f :: f in s.misses ==> Slot(s.issued, f + 1) == None)
  }

  lemma QuietKept(s: Core, s': Core, x: Option<Instr>, n: nat)
    requires QuietAfterMisses(s, n) && s'.cycle == s.cycle + 1 && s'.issued == s.issued + [x]
    requires s'.misses == if s'.flushAll then s.misses + {s.cycle} else s.misses
    requires s.flushAll ==> x == None
    ensures QuietAfterMisses(s', n + 1)
  {
    forall f | f in s'.misses
      ensures Slot(s'.issued, f + 1) == None
    {
      if f in s.misses {
        assert Slot(s.issued, f + 1) == None;
      }
    }
  }

  lemma QuietAtReset(inputs: seq<Option<Instr>>, states: seq<Core>, l: LongLatency, a: Arch)
    requires IsRun(l, a, inputs, states)
    ensures |states| == |inputs| + 1 && QuietAfterMisses(states[0], 0)
  {
    ResetRecord(inputs, states, l, a);
  }

  lemma {:induction false} FlushIssuesNothing(l: LongLatency, a: Arch, inputs: seq<Option<Instr>>, states: seq<Core>,
                                              n: nat)
    requires IsRun(l, a, inputs, states) && n <= |inputs|
    ensures |states| == |inputs| + 1 && QuietAfterMisses(states[n], n)
  {
    hide *;
    QuietAtReset(inputs, states, l, a);
    if n > 0 {
      FlushIssuesNothing(l, a, inputs, states, n - 1);
      CycleRecord(inputs, states, l, a, n - 1);
      QuietKept(states[n - 1], states[n], IssuedInstr(states[n - 1], inputs[n - 1]), n - 1);
    }
  }

  lemma NoEffectAt(s: Core, h: History, w: Work, f: nat)
    requires RecordOk(s, h) && CommitOk(s, h, w) && AccessOk(s, h, w)
    requires f in s.misses && QuietAfterMisses(s, s.cycle)
    ensures forall k :: 0 <= k < |s.retired| ==> !(f - 2 < s.retired[k].op.born <= f + 1)
    ensures forall x :: x in s.accessed ==> !(f - 2 < x.born <= f + 1)
  {
    hide Surviving, RetiredUpto, AccessedUpto, Finished, OnTime, WritebackCycle, IsWritebackOf;
    forall t: nat | f - 2 < t <= f + 1
      ensures !Alive(h, t)
    {
      SurvivingSlot(s, t);
    }
    RetiredMembers(w, h, Committed(s), s.longLatency);
    forall k | 0 <= k < |s.retired|
      ensures !(f - 2 < s.retired[k].op.born <= f + 1)
    {
      RetiredOnTime(s, h, w, Committed(s), k);
    }
    forall x | x in s.accessed
      ensures !(f - 2 < x.born <= f + 1)
    {
      AccessedMembers(w, h, s.cycle - 2, x);
    }
  }

  /** After a misprediction found in Branch in cycle f, nothing issued after the branch (in cycles
      f - 1 to f + 1) has passed load_store or write-back, at this or any later point of the run. */
  lemma WrongPathHasNoEffect(l: LongLatency, a: Arch, inputs: seq<Option<Instr>>, states: seq<Core>, n: nat, f: nat)
    requires IsRun(l, a, inputs, states) && n <= |inputs|
    requires f in states[n].misses
    ensures forall k :: 0 <= k < |states[n].retired| ==> !(f - 2 < states[n].retired[k].op.born <= f + 1)
    ensures forall x :: x in states[n].accessed ==> !(f - 2 < x.born <= f + 1)
  {
    hide *;
    var s, w := FlowIn(l, a, inputs, states, n);
    FlushIssuesNothing(l, a, inputs, states, n);
    NoEffectAt(s, Surviving(s), w, f);
  }

  /** Outside the cycle of a flush, the items the counter lets through are exactly the long
      instructions issued that were not taken back: those made before a flush are all discarded,
      those made after it all kept. */
  lemma LongUnitDiscardsExactly(l: LongLatency, a: Arch, inputs: seq<Option<Instr>>, states: seq<Core>, n: nat, k: nat)
    requires IsRun(l, a, inputs, states) && n <= |inputs|
    requires !states[n].flushAll && k < l - 1
    ensures var s, t := states[n], n + k - l;
            && |s.longUnit| == l - 1
            && (s.longUnit[k].Some? && s.flushExpiration <= k + 1
                <==> t >= 0 && Slot(s.issued, t).Some? && Slot(s.issued, t).value.IsLongArithmetic()
                     && !TakenBack(s, t))
            && (s.longUnit[k].Some? && s.flushExpiration <= k + 1 ==>
                s.longUnit[k].value.born == t && Slot(s.issued, t) == Some(s.longUnit[k].value.instr))
  {
    hide *;
    var s, w := FlowIn(l, a, inputs, states, n);
    LongItemAt(s, Surviving(s), w, k);
  }

  lemma LongItemAt(s: Core, h: History, w: Work, k: nat)
    requires RecordOk(s, h) && LongUnitOk(s, h, w) && k < s.longLatency - 1
    ensures |s.longUnit| == s.longLatency - 1
    ensures var t := s.cycle + k - s.longLatency;
            && (s.longUnit[k].Some? && s.flushExpiration <= k + 1
                <==> t >= 0 && Slot(s.issued, t).Some? && Slot(s.issued, t).value.IsLongArithmetic()
                     && !TakenBack(s, t))
            && (s.longUnit[k].Some? && s.flushExpiration <= k + 1 ==>
                s.longUnit[k].value.born == t && Slot(s.issued, t) == Some(s.longUnit[k].value.instr))
  {
    hide Surviving;
    var t := s.cycle + k - s.longLatency;
    assert LongItemOk(s, h, w, k);
    if t >= 0 {
      SurvivingSlot(s, t);
    }
  }

  // The scoreboard

  /** Every entry is right in decode: in flight, it sits at the stage of its youngest producer; one
      cycle after that producer's write-back it is as it was at reset. */
  ghost predicate Tracks(s: Core) {
    !s.flushAll ==> forall r: Register :: Tracked(s, r)
  }

  ghost predicate Tracked(s: Core, r: Register) {
    EntryTracks(BypassInDecode(s).scoreboard[r], Surviving(s), s.cycle, r, s.cycle, s.longLatency)
  }

  /** Traced over a bypassible entry, a second destination is not tracked. */
  lemma NotTracked(s: Core, h: History)
    requires |h| == s.cycle && s.notify == Slot(h, s.cycle - 1) && !SecondDestinationSafe(s)
    ensures var r := s.notify.value.dst1;
            !EntryTracks(BypassInDecode(s).scoreboard[r], h, s.cycle, r, s.cycle, s.longLatency)
  {
    var i := s.notify.value;
    var r, b := i.dst1, TracedFirstDst(Updated(s.bypass, s.longLatency).scoreboard, i, s.longLatency);
    assert BypassInDecode(s).scoreboard[r] == TracedSecond(b[r], i);
    TraceSecond(b[r], i, s.longLatency);
    assert Alive(h, s.cycle - 1) && LastWriter(h, s.cycle, r) == s.cycle - 1;
  }

  lemma TracksExactly(s: Core, h: History)
    requires h == Surviving(s) && |h| == s.cycle
    requires !s.flushAll ==> ScoreboardOk(s, h) && s.notify == Slot(h, s.cycle - 1)
    ensures Tracks(s) <==> SecondDestinationSafe(s)
  {
    hide EntryTracks, SecondDestinationSafe, Surviving, ScoreboardOk, BypassInDecode;
    if s.flushAll {
      FlushedIsSafe(s);
    } else if SecondDestinationSafe(s) {
      forall r: Register
        ensures Tracked(s, r)
      {
        TrackedInDecode(s, h, r);
      }
    } else {
      UnsafeNotifies(s);
      NotTracked(s, h);
      assert !Tracked(s, s.notify.value.dst1);
    }
  }

  lemma FlushedIsSafe(s: Core)
    requires s.flushAll
    ensures SecondDestinationSafe(s)
  {
  }

  lemma UnsafeNotifies(s: Core)
    requires !SecondDestinationSafe(s)
    ensures s.notify.Some?
  {
  }

  lemma TracksInCycle(l: LongLatency, a: Arch, inputs: seq<Option<Instr>>, states: seq<Core>, n: nat)
    requires IsRun(l, a, inputs, states) && n <= |inputs| && |states| == |inputs| + 1
    requires forall k :: 0 <= k < n ==> TraceHarmless(states[k])
    ensures Tracks(states[n]) <==> SecondDestinationSafe(states[n])
  {
    hide *;
    ReachableScoreboard(l, a, inputs, states, n);
    ReachableFlow(l, a, inputs, states, n);
    FlowParts(states[n], Surviving(states[n]), WorkOf(states));
    TracksExactly(states[n], Surviving(states[n]));
  }

  /** Second destinations are all that tracking depends on. In every run, whatever it computes, every
      entry is tracked in every cycle if and only if no second destination is ever traced over a
      bypassible entry. */
  lemma {:induction false} TrackedExactly(l: LongLatency, a: Arch, inputs: seq<Option<Instr>>, states: seq<Core>,
                                          n: nat)
    requires IsRun(l, a, inputs, states) && n <= |inputs| && |states| == |inputs| + 1
    ensures (forall k :: 0 <= k < n ==> Tracks(states[k])) <==>
            (forall k :: 0 <= k < n ==> SecondDestinationSafe(states[k]))
  {
    hide Tracks, SecondDestinationSafe, IsRun, Branch;
    if n > 0 {
      TrackedExactly(l, a, inputs, states, n - 1);
      if forall k :: 0 <= k < n - 1 ==> SecondDestinationSafe(states[k]) {
        TracksInCycle(l, a, inputs, states, n - 1);
      } else {
        var k :| 0 <= k < n - 1 && !Tracks(states[k]);
      }
    }
  }

  lemma InFlightNow(s: Core, h: History, w: Work)
    requires FlowAt(s, h, w) && Works(s, w) && !s.flushAll
    ensures InFlightOk(s, h, w)
  {
    hide IssueOk, ExecutedOk, LongUnitOk, WritebackInputsOk, FlushOk, InOrder, Works, CommitOk, AccessOk, LatencyOk;
    hide UntracedOk;
  }

  lemma PortsOfNext(s: Core, fetched: Option<Instr>, s': Core)
    requires NextIs(s, fetched, s')
    ensures s.Shaped() && PortsWritten(s, s')
  {
  }

  /** As long as no second destination is traced over a bypassible entry, and whatever is computed: in
      decode every entry is tracked; a source that is ready, if its youngest producer is in flight, is
      sent to a port that carries the producer's first result in the next cycle, whatever its mask;
      and otherwise it is read from the register file. */
  lemma ScoreboardTracksRun(l: LongLatency, a: Arch, inputs: seq<Option<Instr>>, states: seq<Core>, n: nat, r: Register)
    requires IsRun(l, a, inputs, states) && |states| == |inputs| + 1 && n < |inputs| && !states[n].flushAll
    requires forall k :: 0 <= k <= n ==> SecondDestinationSafe(states[k])
    ensures var s := states[n];
            var h, b, w := Surviving(s), BypassInDecode(s), WorkOf(states);
            && EntryTracks(b.scoreboard[r], h, n, r, n, l)
            && (SourceReady(b, r) ==>
                var seen := Operand(states[n + 1], SourceRead(s, b, r), SourceCommand(s, b, r));
                if InFlight(s, h, r) then
                  SourceCommand(s, b, r).Some? && seen == Finished(w, h, LastWriter(h, n, r)).res.v0
                else SourceCommand(s, b, r).None? && seen == s.rf[r])
  {
    hide *;
    var s, w := FlowIn(l, a, inputs, states, n);
    ReachableFlow(l, a, inputs, states, n);
    TracesAreHarmless(states, n);
    ReachableScoreboard(l, a, inputs, states, n);
    FlowParts(s, Surviving(s), w);
    TrackedInDecode(s, Surviving(s), r);
    if SourceReady(BypassInDecode(s), r) {
      InFlightNow(s, Surviving(s), w);
      CycleOfRun(l, a, inputs, states, n);
      PortsOfNext(s, inputs[n], states[n + 1]);
      TrackedSource(s, states[n + 1], Surviving(s), w, r);
    }
  }

  lemma TracesAreHarmless(states: seq<Core>, n: nat)
    requires n <= |states| && forall k :: 0 <= k < n ==> SecondDestinationSafe(states[k])
    ensures forall k :: 0 <= k < n ==> TraceHarmless(states[k])
  {
    hide SecondDestinationSafe, Branch;
  }

  lemma {:induction false} IssuedPrefix(l: LongLatency, a: Arch, inputs: seq<Option<Instr>>, states: seq<Core>,
                                        n: nat, m: nat)
    requires IsRun(l, a, inputs, states) && n <= m <= |inputs|
    ensures |states| == |inputs| + 1 && states[n].issued <= states[m].issued && |states[n].issued| == n
    decreases m - n
  {
    hide IsRun, IssuedInstr;
    FlushIssuesNothing(l, a, inputs, states, n);
    if n < m {
      IssuedPrefix(l, a, inputs, states, n, m - 1);
      CycleRecord(inputs, states, l, a, m - 1);
    }
  }

  lemma SameIssue(s: Core, s': Core, p: int)
    requires s.issued <= s'.issued && Alive(Surviving(s), p) && Alive(Surviving(s'), p)
    ensures Slot(Surviving(s'), p) == Slot(Surviving(s), p)
  {
    hide Surviving;
    SurvivingSlot(s, p);
    SurvivingSlot(s', p);
  }

  /** And what is forwarded so is what the producer writes back later on. */
  lemma ForwardedIsWrittenBack(l: LongLatency, a: Arch, inputs: seq<Option<Instr>>, states: seq<Core>, n: nat,
                               r: Register, m: nat, k: nat)
    requires IsRun(l, a, inputs, states) && |states| == |inputs| + 1 && n < m <= |inputs| && !states[n].flushAll
    requires forall j :: 0 <= j <= n ==> SecondDestinationSafe(states[j])
    requires SourceReady(BypassInDecode(states[n]), r) && InFlight(states[n], Surviving(states[n]), r)
    requires k < |states[m].retired|
    requires states[m].retired[k].op.born == LastWriter(Surviving(states[n]), states[n].cycle, r)
    ensures var s, b := states[n], BypassInDecode(states[n]);
            Operand(states[n + 1], SourceRead(s, b, r), SourceCommand(s, b, r)) == states[m].retired[k].op.res.v0
  {
    hide *;
    ScoreboardTracksRun(l, a, inputs, states, n, r);
    var s, w := FlowIn(l, a, inputs, states, n);
    var s', _ := FlowIn(l, a, inputs, states, m);
    var p := s'.retired[k].op.born;
    FlyingProducer(s, Surviving(s), r);
    RetiredIsFinished(s', Surviving(s'), w, k);
    IssuedPrefix(l, a, inputs, states, n, m);
    SameIssue(s, s', p);
    SamePlace(w, Surviving(s), Surviving(s'), p);
  }

  lemma RetiredIsFinished(s: Core, h: History, w: Work, k: nat)
    requires CommitOk(s, h, w) && k < |s.retired|
    ensures Alive(h, s.retired[k].op.born) && s.retired[k].op == Finished(w, h, s.retired[k].op.born)
  {
    hide Finished, RetiredUpto, WritebackCycle, Committed, Alive;
    RetiredMembers(w, h, Committed(s), s.longLatency);
    assert IsWritebackOf(s.retired[k], w, h, s.retired[k].op.born, s.longLatency);
  }
}
