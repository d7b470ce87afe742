/** Every run of the pipeline, safe or not, moves its instructions as the history says: the invariant
    of the flow, one cycle at a time and over whole runs. */
module Flow {
  import opened Operations
  import opened Options
  import opened FuncSim
  import opened Scoreboard
  import opened Pipeline
  import opened Timeline
  import opened Invariant
  import opened StepRecord
  import opened StepData
  import opened StepStages

  lemma ResetFlow(l: LongLatency, a: Arch, w: Work)
    ensures var s := Reset(l, a); FlowAt(s, Surviving(s), w) && ScoreboardOk(s, Surviving(s))
  {
  }

  /** The history before and after a cycle. */
  ghost predicate Histories(s: Core, s': Core, h: History, h': History, fetched: Option<Instr>) {
    && h == Surviving(s) && h' == Surviving(s')
    && |h| == s.cycle
    && Grows(h, h', s.cycle, IssuedInstr(s, fetched), Branch(s).miss)
    && (Branch(s).miss ==> BranchAt(h, s.cycle - 2))
  }

  lemma StepHistories(s: Core, s': Core, h: History, fetched: Option<Instr>, w: Work)
    requires FlowAt(s, h, w) && NextIs(s, fetched, s')
    ensures Histories(s, s', h, Surviving(s'), fetched)
  {
    HistoryGrows(s, s', IssuedInstr(s, fetched), Branch(s).miss);
    BranchOutput(s, h, w);
  }

  lemma StepRecordOk(s: Core, s': Core, h: History, h': History, fetched: Option<Instr>)
    requires RecordOk(s, h) && LatencyOk(s, h) && FlushOk(s, h)
    requires !s.flushAll ==> s.notify == Slot(h, s.cycle - 1)
    requires NextIs(s, fetched, s') && Histories(s, s', h, h', fetched)
    ensures RecordOk(s', h')
  {
    OrderKept(s, h, h', fetched, Branch(s).miss);
  }

  lemma StepTiming(s: Core, s': Core, h: History, h': History, fetched: Option<Instr>)
    requires |h| == s.cycle && InOrder(h, s.longLatency) && LatencyOk(s, h) && FlushOk(s, h)
    requires !s.flushAll ==> s.notify == Slot(h, s.cycle - 1)
    requires Grows(h, h', s.cycle, IssuedInstr(s, fetched), s'.flushAll)
    requires s'.flushAll ==> BranchAt(h, s.cycle - 2)
    requires s'.cycle == s.cycle + 1 && s'.longLatency == s.longLatency && s'.bypass == BypassInDecode(s)
    ensures LatencyOk(s', h') && FlushOk(s', h')
  {
    var issue := IssuedInstr(s, fetched);
    forall t | t < s'.cycle - 1 && Alive(h', t)
      ensures WritebackCycle(h', t, s'.longLatency) <= s'.cycle - 1 + s'.bypass.operationLatency
    {
      LatencyKept(s, h, h', issue, s'.flushAll, s'.bypass.operationLatency, t);
    }
    if s'.flushAll {
      forall t | Alive(h', t)
        ensures t <= s'.cycle - 3 && WritebackCycle(h', t, s'.longLatency) <= s'.cycle
      {
        FlushKept(h, h', s.cycle, issue, s.longLatency, t);
      }
    }
  }

  lemma StepUntraced(s: Core, s': Core)
    requires UntracedOk(s) && s'.bypass == BypassInDecode(s)
    ensures UntracedOk(s')
  {
    forall r: Register
      ensures !s'.bypass.scoreboard[r].isTraced ==> s'.bypass.scoreboard[r] == UNTRACED
    {
      UntracedKept(s, r);
    }
  }

  lemma StepFront(s: Core, s': Core, h: History, h': History, fetched: Option<Instr>, w: Work)
    requires FlowAt(s, h, w) && NextIs(s, fetched, s') && Works(s', w)
    requires Histories(s, s', h, h', fetched) && !s'.flushAll
    ensures IssueOk(s', h', w) && ExecutedOk(s', h', w) && LongUnitOk(s', h', w)
  {
    IssueKept(s, s', h, h', w, fetched);
    ExecutedKept(s, s', h, h', w, IssuedInstr(s, fetched));
    forall k | 0 <= k < s'.longLatency - 1
      ensures LongItemOk(s', h', w, k)
    {
      LongItemKept(s, s', h, h', w, IssuedInstr(s, fetched), k);
    }
  }

  lemma StepBack(s: Core, s': Core, h: History, h': History, fetched: Option<Instr>, w: Work)
    requires FlowAt(s, h, w) && NextIs(s, fetched, s') && Histories(s, s', h, h', fetched) && Works(s, w)
    ensures WritebackInputsOk(s', h', w) && CommitOk(s', h', w) && AccessOk(s', h', w)
  {
    WritebackInputsKept(s, s', h, h', w, IssuedInstr(s, fetched), Branch(s).miss);
    CommitKept(s, s', h, h', w, IssuedInstr(s, fetched), Branch(s).miss);
    AccessKept(s, s', h, h', w, IssuedInstr(s, fetched), Branch(s).miss);
  }

  lemma FlowParts(s: Core, h: History, w: Work)
    requires FlowAt(s, h, w)
    ensures RecordOk(s, h) && CommitOk(s, h, w) && AccessOk(s, h, w) && WritebackInputsOk(s, h, w)
    ensures LatencyOk(s, h) && FlushOk(s, h) && UntracedOk(s) && s.flushExpiration <= s.longLatency - 1
    ensures s.Shaped() && |h| == s.cycle && InOrder(h, s.longLatency)
    ensures !s.flushAll ==> IssueOk(s, h, w) && ExecutedOk(s, h, w) && LongUnitOk(s, h, w)
    ensures !s.flushAll ==> s.notify == Slot(h, s.cycle - 1)
  {
    hide LatencyOk, FlushOk, UntracedOk, WritebackInputsOk, CommitOk, AccessOk, ExecutedOk, LongUnitOk, InOrder;
    hide Made, ExecutedOp;
  }

  lemma FlushCounterBound(s: Core)
    requires s.Shaped() && s.flushExpiration <= s.longLatency - 1
    ensures Execute(s).flushExpiration <= s.longLatency - 1
  {
    assert s.flushAll ==> Execute(s).flushExpiration == s.longLatency - 1;
    assert !s.flushAll ==> Execute(s).flushExpiration == ClockedSavedFlush(s);
  }

  lemma Assembled(s: Core, h: History, w: Work)
    requires RecordOk(s, h) && LatencyOk(s, h) && FlushOk(s, h) && UntracedOk(s)
    requires s.flushExpiration <= s.longLatency - 1
    requires WritebackInputsOk(s, h, w) && CommitOk(s, h, w) && AccessOk(s, h, w)
    requires !s.flushAll ==> IssueOk(s, h, w) && ExecutedOk(s, h, w) && LongUnitOk(s, h, w)
    ensures FlowAt(s, h, w)
  {
    hide LatencyOk, FlushOk, UntracedOk, WritebackInputsOk, CommitOk, AccessOk, ExecutedOk, LongUnitOk, InOrder;
    hide IssueOk;
  }

  /** Every cycle keeps the flow, whatever fetch delivers and whatever is computed. */
  lemma StepKeepsFlow(s: Core, s': Core, h: History, fetched: Option<Instr>, w: Work)
    requires FlowAt(s, h, w) && NextIs(s, fetched, s') && Works(s, w) && Works(s', w)
    ensures FlowAt(s', Surviving(s'), w) && Histories(s, s', h, Surviving(s'), fetched)
  {
    hide *;
    var h' := Surviving(s');
    FlowParts(s, h, w);
    NextParts(s, fetched, s');
    StepHistories(s, s', h, fetched, w);
    HistoriesParts(s, s', h, h', fetched);
    StepRecordOk(s, s', h, h', fetched);
    StepTiming(s, s', h, h', fetched);
    StepUntraced(s, s');
    if !s'.flushAll {
      StepFront(s, s', h, h', fetched, w);
    }
    StepBack(s, s', h, h', fetched, w);
    FlushCounterBound(s);
    Assembled(s', h', w);
  }

  lemma NextParts(s: Core, fetched: Option<Instr>, s': Core)
    requires NextIs(s, fetched, s')
    ensures s.Shaped() && s'.Shaped() && s'.cycle == s.cycle + 1 && s'.longLatency == s.longLatency && s'.isa == s.isa
    ensures s'.flushAll == Branch(s).miss && s'.bypass == BypassInDecode(s)
    ensures s'.flushExpiration == Execute(s).flushExpiration
  {
  }

  lemma HistoriesParts(s: Core, s': Core, h: History, h': History, fetched: Option<Instr>)
    requires Histories(s, s', h, h', fetched)
    ensures |h| == s.cycle && Grows(h, h', s.cycle, IssuedInstr(s, fetched), Branch(s).miss)
    ensures Branch(s).miss ==> BranchAt(h, s.cycle - 2)
  {
  }

  /** A misprediction apart, a cycle keeps the scoreboard right if no second destination is traced
      over a bypassible entry. */
  lemma StepScoreboard(s: Core, s': Core, h: History, h': History, issue: Option<Instr>)
    requires |h| == s.cycle && Grows(h, h', s.cycle, issue, false)
    requires UntracedOk(s) && FlushOk(s, h) && SecondDestinationSafe(s)
    requires !s.flushAll ==> ScoreboardOk(s, h) && s.notify == Slot(h, s.cycle - 1)
    requires s'.cycle == s.cycle + 1 && s'.longLatency == s.longLatency && s'.bypass == BypassInDecode(s)
    ensures ScoreboardOk(s', h')
  {
    forall r: Register
      ensures EntryTracks(UpdatedEntry(s'.bypass.scoreboard[r], s'.longLatency), h', s'.cycle - 1, r, s'.cycle,
                          s'.longLatency)
    {
      ScoreboardKept(s, h, h', issue, r);
    }
  }

  // Whole runs

  /** What a run executes and accesses. */
  function WorkOf(states: seq<Core>): Work {
    Work(t => ExecutedIn(states, t), t => AccessedIn(states, t))
  }

  const NOTHING_DONE := Op(Instr(OutUnknown, 0, 0, 0, 0, 0, BPInterface(false, 0, false), 0, 0), 0, 0, 0, NO_RESULT)

  function ExecutedIn(states: seq<Core>, t: int): Op {
    if 0 <= t < |states| - 1 && states[t + 1].toExecute.Some?
    then ExecutedOp(states[t + 1], states[t + 1].toExecute.value)
    else NOTHING_DONE
  }

  function AccessedIn(states: seq<Core>, t: int): Op {
    if 0 <= t < |states| - 2 && states[t + 2].toMem.Some?
    then Accessed(states[t + 2].isa, states[t + 2].toMem.value, states[t + 2].mem)
    else NOTHING_DONE
  }

  lemma WorkIsDone(states: seq<Core>, n: nat)
    requires n < |states| && states[n].cycle == n
    requires n == 0 ==> states[n].toExecute.None?
    requires n <= 1 ==> states[n].toMem.None?
    ensures Works(states[n], WorkOf(states))
  {
    hide ExecutedOp, Accessed;
  }

  lemma CycleOfRun(l: LongLatency, a: Arch, inputs: seq<Option<Instr>>, states: seq<Core>, k: nat)
    requires IsRun(l, a, inputs, states) && k < |inputs|
    ensures |states| == |inputs| + 1 && NextIs(states[k], inputs[k], states[k + 1])
    ensures states[k].Shaped() && states[k + 1] == Next(states[k], inputs[k])
  {
    hide Next, Reset, NextIs;
    assert IsCycle(inputs, states, k);
    NextFields(states[k], inputs[k]);
  }

  lemma StartOfRun(l: LongLatency, a: Arch, inputs: seq<Option<Instr>>, states: seq<Core>)
    requires IsRun(l, a, inputs, states)
    ensures |states| == |inputs| + 1 && states[0] == Reset(l, a)
  {
    hide Reset, IsCycle;
  }

  lemma ResetFields(l: LongLatency, a: Arch)
    ensures var s := Reset(l, a);
            && s.cycle == 0 && s.isa == a.isa && s.longLatency == l && s.toExecute.None? && s.toMem.None?
            && s.rf == a.rf && s.mem == a.mem && s.stalled.None? && !s.flushAll && Committed(s) == 0
  {
  }

  lemma MemAfterExecute(s: Core, fetched: Option<Instr>, s': Core)
    requires NextIs(s, fetched, s')
    ensures s.toExecute.None? ==> s'.toMem.None?
  {
    hide ExecutedOp;
  }

  /** The invariant of the flow holds in every state of every run. */
  lemma {:induction false} ReachableFlow(l: LongLatency, a: Arch, inputs: seq<Option<Instr>>, states: seq<Core>, n: nat)
    requires IsRun(l, a, inputs, states) && n <= |inputs|
    ensures |states| == |inputs| + 1
    ensures FlowAt(states[n], Surviving(states[n]), WorkOf(states)) && Works(states[n], WorkOf(states))
    ensures states[n].cycle == n && states[n].longLatency == l && states[n].isa == a.isa
    ensures n == 0 ==> states[n].toExecute.None?
  {
    hide *;
    StartOfRun(l, a, inputs, states);
    ResetFields(l, a);
    if n == 0 {
      ResetFlow(l, a, WorkOf(states));
      WorkIsDone(states, n);
    } else {
      ReachableFlow(l, a, inputs, states, n - 1);
      var s, s' := states[n - 1], states[n];
      CycleOfRun(l, a, inputs, states, n - 1);
      NextParts(s, inputs[n - 1], s');
      MemAfterExecute(s, inputs[n - 1], s');
      WorkIsDone(states, n);
      StepKeepsFlow(s, s', Surviving(s), inputs[n - 1], WorkOf(states));
    }
  }

  /** What a cycle of a run does to the history. */
  lemma CycleHistories(l: LongLatency, a: Arch, inputs: seq<Option<Instr>>, states: seq<Core>, k: nat)
    requires IsRun(l, a, inputs, states) && k < |inputs|
    ensures |states| == |inputs| + 1
    ensures Histories(states[k], states[k + 1], Surviving(states[k]), Surviving(states[k + 1]), inputs[k])
  {
    hide *;
    ReachableFlow(l, a, inputs, states, k);
    CycleOfRun(l, a, inputs, states, k);
    StepHistories(states[k], states[k + 1], Surviving(states[k]), inputs[k], WorkOf(states));
  }

  /** Nothing goes wrong with second destinations in the cycle of this state, or a misprediction found
      in it takes back whatever does. */
  ghost predicate TraceHarmless(s: Core) {
    !Branch(s).miss ==> SecondDestinationSafe(s)
  }

  lemma HarmlessIsSafe(s: Core)
    requires TraceHarmless(s)
    ensures !Branch(s).miss ==> SecondDestinationSafe(s)
  {
    hide Branch, SecondDestinationSafe;
  }

  /** The scoreboard is right as long as no second destination has done harm, whatever the values. */
  lemma {:induction false} ReachableScoreboard(l: LongLatency, a: Arch, inputs: seq<Option<Instr>>, states: seq<Core>,
                                               n: nat)
    requires IsRun(l, a, inputs, states) && n <= |inputs| && |states| == |inputs| + 1
    requires forall k :: 0 <= k < n ==> TraceHarmless(states[k])
    ensures !states[n].flushAll ==> ScoreboardOk(states[n], Surviving(states[n]))
  {
    hide *;
    if n == 0 {
      StartOfRun(l, a, inputs, states);
      ResetFlow(l, a, WorkOf(states));
    } else {
      var s, s' := states[n - 1], states[n];
      HarmlessIsSafe(s);
      ReachableScoreboard(l, a, inputs, states, n - 1);
      ReachableFlow(l, a, inputs, states, n - 1);
      FlowParts(s, Surviving(s), WorkOf(states));
      CycleOfRun(l, a, inputs, states, n - 1);
      NextParts(s, inputs[n - 1], s');
      CycleHistories(l, a, inputs, states, n - 1);
      HistoriesParts(s, s', Surviving(s), Surviving(s'), inputs[n - 1]);
      if !s'.flushAll {
        StepScoreboard(s, s', Surviving(s), Surviving(s'), IssuedInstr(s, inputs[n - 1]));
      }
    }
  }
}
