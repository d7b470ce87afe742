/** What safe runs guarantee, and that only safe runs do: for any long-unit latency, any initial state
    and any stream of instructions from fetch. */
module Theorems {
  import opened Operations
  import opened Options
  import opened FuncSim
  import opened Scoreboard
  import opened Pipeline
  import opened Timeline
  import opened Invariant
  import opened Scheduling
  import opened StepRecord
  import opened StepStages
  import opened StepIssue
  import opened Flow
  import opened Timing
  import opened Refinement

  /** A run on instructions as the decoders make them. */
  ghost predicate WellFormedRun(l: LongLatency, a: Arch, inputs: seq<Option<Instr>>, states: seq<Core>) {
    && IsRun(l, a, inputs, states)
    && (forall k :: 0 <= k < |inputs| && inputs[k].Some? ==> inputs[k].value.WellFormed())
  }

  /** Unless a misprediction of the run takes it back, what is traced in cycle `k`, the issue of the cycle
      before, is not traced as a second destination over a bypassible entry. */
  ghost predicate TracesSafely(inputs: seq<Option<Instr>>, states: seq<Core>, k: nat)
    requires |states| == |inputs| + 1 && k < |inputs|
  {
    !TakenBack(states[|inputs|], k - 1) ==> SecondDestinationSafe(states[k])
  }

  /** And what is issued in cycle `k` takes no result from a bypass port that is not written whole. */
  ghost predicate ForwardsSafely(a: Arch, inputs: seq<Option<Instr>>, states: seq<Core>, k: nat)
    requires |states| == |inputs| + 1 && k < |inputs|
  {
    !TakenBack(states[|inputs|], k) ==> ForwardingSafe(states[k], Surviving(states[k]), inputs[k], a)
  }

  ghost predicate CycleSafe(a: Arch, inputs: seq<Option<Instr>>, states: seq<Core>, k: nat)
    requires |states| == |inputs| + 1 && k < |inputs|
  {
    TracesSafely(inputs, states, k) && ForwardsSafely(a, inputs, states, k)
  }

  ghost predicate SafeUpto(a: Arch, inputs: seq<Option<Instr>>, states: seq<Core>, n: nat)
    requires |states| == |inputs| + 1 && n <= |inputs|
  {
    forall k :: 0 <= k < n ==> CycleSafe(a, inputs, states, k)
  }

  /** A run in which no surviving instruction has its second destination traced over a bypassible
      entry, or takes from a bypass port a result that its producer does not write whole. */
  ghost predicate SafeRun(l: LongLatency, a: Arch, inputs: seq<Option<Instr>>, states: seq<Core>) {
    WellFormedRun(l, a, inputs, states) && SafeUpto(a, inputs, states, |inputs|)
  }

  lemma RunIsRun(l: LongLatency, a: Arch, inputs: seq<Option<Instr>>, states: seq<Core>)
    requires WellFormedRun(l, a, inputs, states)
    ensures IsRun(l, a, inputs, states) && |states| == |inputs| + 1
  {
    hide IsCycle, Reset;
  }

  // The record of mispredictions

  /** The record says in which cycles the Branch stage found a misprediction. */
  ghost predicate MissesAre(states: seq<Core>, n: nat)
    requires n < |states|
  {
    && (forall f :: f in states[n].misses <==> 0 <= f < n && Branch(states[f]).miss)
    && (n > 0 ==> (states[n].flushAll <==> Branch(states[n - 1]).miss))
  }

  lemma MissesGrow(states: seq<Core>, n: nat)
    requires 0 < n < |states| && states[n - 1].cycle == n - 1 && MissesAre(states, n - 1)
    requires states[n].flushAll == Branch(states[n - 1]).miss
    requires var s := states[n - 1];
             states[n].misses == if Branch(s).miss then s.misses + {s.cycle} else s.misses
    ensures MissesAre(states, n)
  {
    hide Branch;
  }

  lemma NoMissesYet(l: LongLatency, a: Arch, inputs: seq<Option<Instr>>, states: seq<Core>)
    requires IsRun(l, a, inputs, states)
    ensures |states| == |inputs| + 1 && MissesAre(states, 0)
  {
    hide Branch;
    ResetRecord(inputs, states, l, a);
  }

  lemma {:induction false} MissesRecorded(l: LongLatency, a: Arch, inputs: seq<Option<Instr>>, states: seq<Core>,
                                          n: nat)
    requires IsRun(l, a, inputs, states) && n <= |inputs|
    ensures |states| == |inputs| + 1 && MissesAre(states, n)
  {
    hide *;
    NoMissesYet(l, a, inputs, states);
    if n > 0 {
      MissesRecorded(l, a, inputs, states, n - 1);
      ReachableFlow(l, a, inputs, states, n - 1);
      CycleOfRun(l, a, inputs, states, n - 1);
      NextRecord(states[n - 1], inputs[n - 1]);
      MissesGrow(states, n);
    }
  }

  /** Seen from the cycle itself. */
  lemma TakenBackThen(l: LongLatency, a: Arch, inputs: seq<Option<Instr>>, states: seq<Core>, k: nat)
    requires IsRun(l, a, inputs, states) && k < |inputs|
    ensures |states| == |inputs| + 1
    ensures TakenBack(states[|inputs|], k - 1) <==> states[k].flushAll || Branch(states[k]).miss
    ensures TakenBack(states[|inputs|], k)
       <==> Branch(states[k]).miss || (k + 1 < |inputs| && Branch(states[k + 1]).miss)
  {
    hide IsRun, Branch;
    MissesRecorded(l, a, inputs, states, |inputs|);
    MissesRecorded(l, a, inputs, states, k);
    FirstIsQuiet(l, a, inputs, states);
  }

  lemma FirstIsQuiet(l: LongLatency, a: Arch, inputs: seq<Option<Instr>>, states: seq<Core>)
    requires IsRun(l, a, inputs, states)
    ensures |states| == |inputs| + 1 && !states[0].flushAll
  {
    hide *;
    StartOfRun(l, a, inputs, states);
    ResetFields(l, a);
  }

  // The invariant

  ghost predicate StalledWellFormed(s: Core) {
    s.stalled.Some? ==> s.stalled.value.WellFormed()
  }

  lemma StalledIsInput(s: Core, fetched: Option<Instr>)
    requires s.Shaped()
    ensures var s' := Next(s, fetched);
            && (s'.stalled.Some? ==> s'.stalled == s.stalled || s'.stalled == fetched)
            && (s'.notify.Some? ==> s'.notify == s.stalled || s'.notify == fetched)
            && s'.longLatency == s.longLatency && s'.cycle == s.cycle + 1 && s'.isa == s.isa
  {
  }

  lemma InputsAreWellFormed(l: LongLatency, a: Arch, inputs: seq<Option<Instr>>, states: seq<Core>, k: nat)
    requires WellFormedRun(l, a, inputs, states) && k < |inputs|
    requires |states| == |inputs| + 1 && StalledWellFormed(states[k])
    ensures InputsWellFormed(states[k], inputs[k]) && StalledWellFormed(states[k + 1])
  {
    hide IsRun, Next, Reset;
    CycleOfRun(l, a, inputs, states, k);
    StalledIsInput(states[k], inputs[k]);
  }

  lemma NothingStalled(l: LongLatency, a: Arch)
    ensures StalledWellFormed(Reset(l, a))
  {
  }

  lemma SafeStep(l: LongLatency, a: Arch, inputs: seq<Option<Instr>>, states: seq<Core>, k: nat)
    requires IsRun(l, a, inputs, states) && k < |inputs| && |states| == |inputs| + 1 && CycleSafe(a, inputs, states, k)
    ensures StepSafe(states[k], states[k + 1], Surviving(states[k]), inputs[k], a)
  {
    hide IsRun, Branch, Surviving, ForwardingSafe, TakenBack;
    TakenBackThen(l, a, inputs, states, k);
    if states[k].flushAll {
      FlushedIsSafe(states[k]);
    }
  }

  /** The invariant holds in every state of every run that has been safe so far. */
  lemma {:induction false} ReachableInv(l: LongLatency, a: Arch, inputs: seq<Option<Instr>>, states: seq<Core>, n: nat)
    requires WellFormedRun(l, a, inputs, states) && |states| == |inputs| + 1 && n <= |inputs|
    requires SafeUpto(a, inputs, states, n)
    ensures InvAt(states[n], Surviving(states[n]), a, WorkOf(states)) && StalledWellFormed(states[n])
  {
    hide *;
    RunIsRun(l, a, inputs, states);
    if n == 0 {
      StartOfRun(l, a, inputs, states);
      ResetInv(l, a, WorkOf(states));
      NothingStalled(l, a);
    } else {
      var s, s' := states[n - 1], states[n];
      UptoUnfolds(a, inputs, states, n);
      ReachableInv(l, a, inputs, states, n - 1);
      ReachableFlow(l, a, inputs, states, n - 1);
      ReachableFlow(l, a, inputs, states, n);
      CycleOfRun(l, a, inputs, states, n - 1);
      InputsAreWellFormed(l, a, inputs, states, n - 1);
      SafeStep(l, a, inputs, states, n - 1);
      StepKeepsInv(s, s', Surviving(s), inputs[n - 1], a, WorkOf(states));
    }
  }

  lemma UptoUnfolds(a: Arch, inputs: seq<Option<Instr>>, states: seq<Core>, n: nat)
    requires |states| == |inputs| + 1 && n <= |inputs|
    ensures n == 0 ==> SafeUpto(a, inputs, states, n) && RightUpto(a, inputs, states, n)
    ensures n > 0 ==>
              (SafeUpto(a, inputs, states, n)
               <==> SafeUpto(a, inputs, states, n - 1) && CycleSafe(a, inputs, states, n - 1))
    ensures n > 0 ==>
              (RightUpto(a, inputs, states, n)
               <==> RightUpto(a, inputs, states, n - 1) && DecodesRight(a, inputs, states, n - 1))
  {
    hide DecodesRight, CycleSafe;
  }

  lemma {:induction false} SafePrefix(a: Arch, inputs: seq<Option<Instr>>, states: seq<Core>, m: nat, n: nat)
    requires |states| == |inputs| + 1 && m <= n <= |inputs| && SafeUpto(a, inputs, states, n)
    ensures SafeUpto(a, inputs, states, m)
  {
    hide CycleSafe;
  }

  /** The invariant of a safe run, as the theorems use it. */
  lemma InvariantIn(l: LongLatency, a: Arch, inputs: seq<Option<Instr>>, states: seq<Core>, n: nat)
      returns (s: Core, w: Work)
    requires SafeRun(l, a, inputs, states) && n <= |inputs|
    ensures |states| == |inputs| + 1 && s == states[n] && w == WorkOf(states)
    ensures InvAt(s, Surviving(s), a, w) && s.longLatency == l && s.cycle == n && s.isa == a.isa
    ensures ValuesOk(s, Surviving(s), a, w) && FlowAt(s, Surviving(s), w)
    ensures CommitOk(s, Surviving(s), w) && |Surviving(s)| == n
  {
    hide *;
    RunOfSafe(l, a, inputs, states);
    SafePrefix(a, inputs, states, n, |inputs|);
    ReachableInv(l, a, inputs, states, n);
    s, w := FlowIn(l, a, inputs, states, n);
    InvParts(s, Surviving(s), a, w);
  }

  lemma RunOfSafe(l: LongLatency, a: Arch, inputs: seq<Option<Instr>>, states: seq<Core>)
    requires SafeRun(l, a, inputs, states)
    ensures WellFormedRun(l, a, inputs, states) && IsRun(l, a, inputs, states) && |states| == |inputs| + 1
    ensures SafeUpto(a, inputs, states, |inputs|)
  {
    hide IsCycle, Reset, CycleSafe;
  }

  lemma InvParts(s: Core, h: History, a: Arch, w: Work)
    requires InvAt(s, h, a, w)
    ensures ValuesOk(s, h, a, w) && FlowAt(s, h, w) && (!s.flushAll ==> ScoreboardOk(s, h))
  {
    hide ValuesOk, FlowAt, ScoreboardOk;
  }

  // Refinement

  /** The survivors issued before `n`, in issue order. */
  function Program(h: History, n: int): seq<Instr>
    decreases n
  {
    if n <= 0 then [] else Program(h, n - 1) + AsSeq(Slot(h, n - 1))
  }

  function RetiredInstrs(r: seq<Retirement>): (p: seq<Instr>)
    ensures |p| == |r|
  {
    if r == [] then [] else RetiredInstrs(r[..|r| - 1]) + [r[|r| - 1].op.instr]
  }

  /** Each write-back carries the result its instruction has when exactly the instructions written
      back before it have run. */
  ghost predicate ResultsSequential(a: Arch, r: seq<Retirement>) {
    r == [] ||
    var before, last := r[..|r| - 1], r[|r| - 1].op;
    ResultsSequential(a, before) && last.res == Outcome(Run(a, RetiredInstrs(before)), last.instr)
  }

  lemma RunAppend(a: Arch, p: seq<Instr>, i: Instr)
    ensures Run(a, p + [i]) == Step(Run(a, p), i)
  {
    hide Step;
    assert (p + [i])[..|p|] == p;
  }

  lemma ProgramUnfolds(h: History, n: int)
    requires n > 0
    ensures Program(h, n) == Program(h, n - 1) + AsSeq(Slot(h, n - 1))
  {
  }

  lemma AtUnfolds(a: Arch, h: History, n: int)
    requires n > 0
    ensures At(a, h, n) == match Slot(h, n - 1) case None => At(a, h, n - 1) case Some(i) => Step(At(a, h, n - 1), i)
  {
    hide Step;
  }

  lemma NothingRun(a: Arch, h: History, n: int)
    requires n <= 0
    ensures At(a, h, n) == Run(a, Program(h, n))
  {
  }

  lemma {:induction false} AtIsRun(a: Arch, h: History, n: int)
    ensures At(a, h, n) == Run(a, Program(h, n))
    decreases n
  {
    hide *;
    if n <= 0 {
      NothingRun(a, h, n);
    } else {
      AtIsRun(a, h, n - 1);
      AtUnfolds(a, h, n);
      ProgramUnfolds(h, n);
      match Slot(h, n - 1)
      case None => AppendNone(Program(h, n - 1), Slot(h, n - 1));
      case Some(i) =>
        AppendSome(Program(h, n - 1), Slot(h, n - 1));
        RunAppend(a, Program(h, n - 1), i);
    }
  }

  lemma AppendNone(p: seq<Instr>, o: Option<Instr>)
    requires o.None?
    ensures p + AsSeq(o) == p
  {
  }

  lemma AppendSome(p: seq<Instr>, o: Option<Instr>)
    requires o.Some?
    ensures p + AsSeq(o) == p + [o.value]
  {
  }

  /** A write-back carries the sequential result of its instruction. */
  lemma WritebackOfIs(a: Arch, w: Work, h: History, t: int, l: LongLatency)
    requires Alive(h, t) && Finished(w, h, t) == SpecFinal(a, h, t)
    ensures var op := WritebackOf(w, h, t, l).op;
            Slot(h, t) == Some(op.instr) && op.res == Outcome(At(a, h, t), op.instr) && op.born == t
  {
    hide Outcome, At, Executed, Finished;
  }

  lemma RetiredOneMore(a: Arch, r: seq<Retirement>, x: Retirement)
    requires ResultsSequential(a, r) && x.op.res == Outcome(Run(a, RetiredInstrs(r)), x.op.instr)
    ensures ResultsSequential(a, r + [x])
    ensures RetiredInstrs(r + [x]) == RetiredInstrs(r) + [x.op.instr]
  {
    hide Outcome, Run;
    assert (r + [x])[..|r|] == r;
  }

  /** So far everything written back, or due to be, carries its sequential result. */
  ghost predicate FinalsRight(w: Work, a: Arch, h: History, n: int) {
    forall t :: t < n && Alive(h, t) ==> Finished(w, h, t) == SpecFinal(a, h, t)
  }

  lemma {:induction false} RetiredIsProgram(a: Arch, w: Work, h: History, n: int, l: LongLatency)
    requires FinalsRight(w, a, h, n)
    ensures RetiredInstrs(RetiredUpto(w, h, n, l)) == Program(h, n)
    ensures ResultsSequential(a, RetiredUpto(w, h, n, l))
    decreases n
  {
    hide At, Run, Outcome, WritebackOf, Program, RetiredUpto, ResultsSequential, RetiredInstrs, Finished, SpecFinal;
    hide Alive;
    if n <= 0 {
      NothingProgrammed(a, w, h, n, l);
    } else {
      RetiredIsProgram(a, w, h, n - 1, l);
      RetiredStep(w, h, n, l);
      ProgramUnfolds(h, n);
      if Alive(h, n - 1) {
        AtIsRun(a, h, n - 1);
        WritebackOfIs(a, w, h, n - 1, l);
        RetiredOneMore(a, RetiredUpto(w, h, n - 1, l), WritebackOf(w, h, n - 1, l));
        AppendSome(Program(h, n - 1), Slot(h, n - 1));
      } else {
        NotAlive(h, n - 1);
        AppendNone(Program(h, n - 1), Slot(h, n - 1));
      }
    }
  }

  lemma NotAlive(h: History, t: int)
    requires !Alive(h, t)
    ensures Slot(h, t) == None
  {
  }

  lemma NothingProgrammed(a: Arch, w: Work, h: History, n: int, l: LongLatency)
    requires n <= 0
    ensures RetiredInstrs(RetiredUpto(w, h, n, l)) == Program(h, n) && ResultsSequential(a, RetiredUpto(w, h, n, l))
  {
  }

  lemma {:induction false} ProgramPrefix(h: History, m: int, n: int)
    requires m <= n
    ensures Program(h, m) <= Program(h, n)
    decreases n - m
  {
    if m < n {
      ProgramPrefix(h, m, n - 1);
    }
  }

  lemma EmptyProgram(h: History, n: int)
    requires n <= 0
    ensures Program(h, n) == []
  {
  }

  /** What was committed was issued at least three cycles ago. */
  lemma CommittedIsPast(s: Core, h: History, w: Work)
    requires CommitOk(s, h, w)
    ensures Committed(s) <= s.cycle - 2 || Committed(s) == 0
  {
    hide RetiredUpto;
    var n := Committed(s);
    assert n > 0 ==> n + 1 <= WritebackCycle(h, n - 1, s.longLatency) < s.cycle;
  }

  lemma CommittedWhenDue(s: Core, h: History, w: Work, t: int)
    requires CommitOk(s, h, w)
    ensures Alive(h, t) ==> (t < Committed(s) <==> WritebackCycle(h, t, s.longLatency) < s.cycle)
  {
    hide RetiredUpto, Committed, WritebackCycle;
  }

  lemma RetiredRecord(s: Core, h: History, w: Work)
    requires CommitOk(s, h, w)
    ensures s.retired == RetiredUpto(w, h, Committed(s), s.longLatency)
  {
    hide RetiredUpto, Committed;
  }

  lemma FinalsUpto(s: Core, h: History, a: Arch, w: Work, n: int)
    requires ValuesOk(s, h, a, w) && (n <= s.cycle - 2 || n <= 0)
    ensures FinalsRight(w, a, h, n)
  {
    hide Finished, SpecFinal, At, Right, Branch;
  }

  lemma RefinesAt(s: Core, h: History, a: Arch, w: Work)
    requires CommitOk(s, h, w) && ValuesOk(s, h, a, w)
    ensures s.rf == Run(a, RetiredInstrs(s.retired)).rf && ResultsSequential(a, s.retired)
    ensures RetiredInstrs(s.retired) == Program(h, Committed(s))
    ensures RetiredInstrs(s.retired) <= Program(h, s.cycle - 2)
    ensures s.mem == Run(a, Program(h, s.cycle - 2)).mem
  {
    hide *;
    var n := Committed(s);
    CommittedIsPast(s, h, w);
    FinalsUpto(s, h, a, w, n);
    RetiredRecord(s, h, w);
    RetiredIsProgram(a, w, h, n, s.longLatency);
    ValuesParts(s, h, a, w);
    AtIsRun(a, h, n);
    AtIsRun(a, h, s.cycle - 2);
    if n > 0 {
      ProgramPrefix(h, n, s.cycle - 2);
    } else {
      EmptyProgram(h, n);
    }
  }

  /** The main theorem. At every point of every safe run the register file is the one the sequential
      simulator has after the instructions written back so far, each of which was written back with
      its sequential result; and memory is the sequential memory after those and the ones that have
      passed the memory stage, all in program order. */
  lemma PipelineRefinesFuncSim(l: LongLatency, a: Arch, inputs: seq<Option<Instr>>, states: seq<Core>, n: nat)
    requires SafeRun(l, a, inputs, states) && n <= |inputs|
    ensures var s := states[n];
            && s.rf == Run(a, RetiredInstrs(s.retired)).rf
            && ResultsSequential(a, s.retired)
            && RetiredInstrs(s.retired) <= Program(Surviving(s), n - 2)
            && s.mem == Run(a, Program(Surviving(s), n - 2)).mem
  {
    hide *;
    var s, w := InvariantIn(l, a, inputs, states, n);
    RefinesAt(s, Surviving(s), a, w);
  }

  /** No instruction is on its way through the back end. */
  predicate Drained(s: Core) {
    && !s.flushAll && s.toExecute.None? && s.toMem.None? && s.toBranch.None?
    && s.fromExecute == [] && s.fromMem.None? && s.fromBranch.None?
    && forall k :: 0 <= k < |s.longUnit| ==> s.longUnit[k].None?
  }

  lemma DrainedLongItem(s: Core, h: History, w: Work, k: int)
    requires s.Shaped() && Drained(s) && LongUnitOk(s, h, w) && 0 <= k < s.longLatency - 1
    ensures !LongAt(h, s.cycle + k - s.longLatency)
  {
    hide Made;
    assert LongItemOk(s, h, w, k);
  }

  lemma DrainedMeansCommitted(s: Core, h: History, w: Work, t: int)
    requires s.Shaped() && |h| == s.cycle && Drained(s)
    requires IssueOk(s, h, w) && ExecutedOk(s, h, w) && LongUnitOk(s, h, w) && WritebackInputsOk(s, h, w)
    ensures Alive(h, t) ==> WritebackCycle(h, t, s.longLatency) < s.cycle
  {
    hide Made, Finished, ExecutedOp, LongUnitOk;
    var age, l := s.cycle - t, s.longLatency;
    assert Alive(h, t) ==> age >= 2;
    if 2 <= age <= l {
      DrainedLongItem(s, h, w, l - age);
    }
  }

  lemma NothingInFlight(s: Core, h: History, w: Work)
    requires FlowAt(s, h, w) && Drained(s)
    ensures forall t :: Committed(s) <= t ==> !Alive(h, t)
  {
    hide *;
    FlowParts(s, h, w);
    DrainedIsQuiet(s);
    forall t | Committed(s) <= t
      ensures !Alive(h, t)
    {
      DrainedMeansCommitted(s, h, w, t);
      CommittedWhenDue(s, h, w, t);
    }
  }

  lemma DrainedIsQuiet(s: Core)
    requires Drained(s)
    ensures !s.flushAll
  {
  }

  lemma {:induction false} NothingAfter(a: Arch, h: History, m: int, n: int)
    requires forall t :: m <= t ==> !Alive(h, t)
    requires m <= n || (m == 0 && n <= 0)
    ensures At(a, h, n) == At(a, h, m)
  {
    hide Step;
    if m <= n {
      NothingBetween(a, h, m, n);
    }
  }

  lemma DrainedAt(s: Core, h: History, a: Arch, w: Work)
    requires FlowAt(s, h, w) && CommitOk(s, h, w) && ValuesOk(s, h, a, w) && Drained(s)
    ensures Arch(s.isa, s.rf, s.mem) == At(a, h, Committed(s))
  {
    hide *;
    NothingInFlight(s, h, w);
    CommittedIsPast(s, h, w);
    ValuesParts(s, h, a, w);
    NothingAfter(a, h, Committed(s), s.cycle - 2);
    SameIsa(a, h, Committed(s));
  }

  /** Once the pipeline has drained, registers and memory are exactly the sequential ones. */
  lemma DrainedIsSequential(l: LongLatency, a: Arch, inputs: seq<Option<Instr>>, states: seq<Core>, n: nat)
    requires SafeRun(l, a, inputs, states) && n <= |inputs| && Drained(states[n])
    ensures Arch(a.isa, states[n].rf, states[n].mem) == Run(a, RetiredInstrs(states[n].retired))
  {
    hide *;
    var s, w := InvariantIn(l, a, inputs, states, n);
    DrainedAt(s, Surviving(s), a, w);
    RefinesAt(s, Surviving(s), a, w);
    AtIsRun(a, Surviving(s), Committed(s));
  }

  // Forwarding

  /** Execute will see, as the operand `r` of what decode works on, the value `r` has after the
      instructions issued before. */
  ghost predicate SeesSequential(s: Core, s': Core, a: Arch, r: Register) {
    var b := BypassInDecode(s);
    Operand(s', SourceRead(s, b, r), SourceCommand(s, b, r)) == Run(a, Program(Surviving(s), s.cycle)).rf[r]
  }

  ghost predicate Delivers(s: Core, s': Core, fetched: Option<Instr>, a: Arch) {
    var issue := IssuedInstr(s, fetched);
    issue.Some? ==> SeesSequential(s, s', a, issue.value.src0) && SeesSequential(s, s', a, issue.value.src1)
  }

  lemma SeesExactly(s: Core, fetched: Option<Instr>, s': Core, h: History, a: Arch, w: Work, r: Register)
    requires InvAt(s, h, a, w) && Works(s, w) && NextIs(s, fetched, s') && h == Surviving(s)
    requires !s.flushAll && !Branch(s).miss && SecondDestinationSafe(s) && SourceReady(BypassInDecode(s), r)
    ensures SeesSequential(s, s', a, r) <==> SourceWhole(s, h, a, r)
  {
    hide InvAt, Works, NextIs, Branch, SecondDestinationSafe, SourceReady, Surviving, SourceWhole, ScoreboardOk;
    hide BypassInDecode, Operand, SourceRead, SourceCommand, Run, Program, EntryTracks, FlowAt, ValuesOk, At;
    hide InFlightOk, CommitOk, PortsWritten;
    InvParts(s, h, a, w);
    FlowParts(s, h, w);
    AssembleInFlight(s, h, w);
    SentAndWritten(s, fetched, s');
    TrackedInDecode(s, h, r);
    OperandDelivered(s, s', h, a, w, r);
    AtIsRun(a, h, s.cycle);
  }

  lemma DeliversExactly(s: Core, fetched: Option<Instr>, s': Core, h: History, a: Arch, w: Work)
    requires InvAt(s, h, a, w) && Works(s, w) && NextIs(s, fetched, s') && h == Surviving(s)
    requires !Branch(s).miss && SecondDestinationSafe(s)
    ensures Delivers(s, s', fetched, a) <==> ForwardingSafe(s, h, fetched, a)
  {
    hide InvAt, Works, NextIs, Branch, SecondDestinationSafe, Surviving, IssuedInstr, IsStall, SourceWhole;
    hide SeesSequential, BypassInDecode;
    if IssuedInstr(s, fetched).Some? {
      var i := IssuedInstr(s, fetched).value;
      NotStalled(s, fetched);
      SourcesReady(BypassInDecode(s), i, s.longLatency);
      SeesExactly(s, fetched, s', h, a, w, i.src0);
      SeesExactly(s, fetched, s', h, a, w, i.src1);
    }
  }

  /** Unless a misprediction of the run takes them back, in cycle `k` every entry is tracked with the
      issue of the cycle before, and every operand issued is delivered. */
  ghost predicate DecodesRight(a: Arch, inputs: seq<Option<Instr>>, states: seq<Core>, k: nat)
    requires |states| == |inputs| + 1 && k < |inputs|
  {
    && (!TakenBack(states[|inputs|], k - 1) ==> Tracks(states[k]))
    && DeliversSafely(a, inputs, states, k)
  }

  ghost predicate DeliversSafely(a: Arch, inputs: seq<Option<Instr>>, states: seq<Core>, k: nat)
    requires |states| == |inputs| + 1 && k < |inputs|
  {
    !TakenBack(states[|inputs|], k) ==> Delivers(states[k], states[k + 1], inputs[k], a)
  }

  ghost predicate RightUpto(a: Arch, inputs: seq<Option<Instr>>, states: seq<Core>, n: nat)
    requires |states| == |inputs| + 1 && n <= |inputs|
  {
    forall k :: 0 <= k < n ==> DecodesRight(a, inputs, states, k)
  }

  lemma TracesHarmless(l: LongLatency, a: Arch, inputs: seq<Option<Instr>>, states: seq<Core>, n: nat)
    requires IsRun(l, a, inputs, states) && |states| == |inputs| + 1 && n <= |inputs| && SafeUpto(a, inputs, states, n)
    ensures forall k :: 0 <= k < n ==> TraceHarmless(states[k])
  {
    hide IsRun, Branch, SecondDestinationSafe, CycleSafe, TakenBack, TraceHarmless, StepSafe;
    forall k | 0 <= k < n
      ensures TraceHarmless(states[k])
    {
      assert CycleSafe(a, inputs, states, k);
      SafeStep(l, a, inputs, states, k);
      StepSafeParts(states[k], states[k + 1], Surviving(states[k]), inputs[k], a);
    }
  }

  lemma StepSafeParts(s: Core, s': Core, h: History, fetched: Option<Instr>, a: Arch)
    requires StepSafe(s, s', h, fetched, a)
    ensures TraceHarmless(s)
  {
    hide TraceHarmless, ForwardingSafe, Branch;
  }

  lemma CycleExactly(l: LongLatency, a: Arch, inputs: seq<Option<Instr>>, states: seq<Core>, k: nat)
    requires WellFormedRun(l, a, inputs, states) && |states| == |inputs| + 1 && k < |inputs|
    requires SafeUpto(a, inputs, states, k)
    ensures Tracks(states[k]) <==> SecondDestinationSafe(states[k])
    ensures TracesSafely(inputs, states, k) ==>
              (DeliversSafely(a, inputs, states, k) <==> ForwardsSafely(a, inputs, states, k))
    ensures DecodesRight(a, inputs, states, k) <==> CycleSafe(a, inputs, states, k)
  {
    hide WellFormedRun, SafeUpto, Tracks, SecondDestinationSafe, TakenBack, Delivers, ForwardingSafe, InvAt, Branch;
    hide TraceHarmless, Surviving, WorkOf, Works, NextIs, FlowAt;
    RunIsRun(l, a, inputs, states);
    hide IsRun;
    TracesHarmless(l, a, inputs, states, k);
    TracksInCycle(l, a, inputs, states, k);
    TakenBackThen(l, a, inputs, states, k);
    if states[k].flushAll {
      FlushedIsSafe(states[k]);
    }
    if !TakenBack(states[|inputs|], k) && SecondDestinationSafe(states[k]) {
      ReachableInv(l, a, inputs, states, k);
      ReachableFlow(l, a, inputs, states, k);
      CycleOfRun(l, a, inputs, states, k);
      DeliversExactly(states[k], inputs[k], states[k + 1], Surviving(states[k]), a, WorkOf(states));
    }
  }

  /** The two assumptions about a run are exactly what the scoreboard and the bypass network need:
      a run meets them if and only if in every cycle, for all that no misprediction takes back, every
      entry is tracked and every operand issued is delivered as the sequential run has it. */
  lemma SafeExactly(l: LongLatency, a: Arch, inputs: seq<Option<Instr>>, states: seq<Core>)
    requires WellFormedRun(l, a, inputs, states)
    ensures SafeRun(l, a, inputs, states) <==>
            forall k :: 0 <= k < |inputs| ==> DecodesRight(a, inputs, states, k)
  {
    hide SafeUpto, DecodesRight, Next, Reset, IsCycle;
    SafeExactlyUpto(l, a, inputs, states, |inputs|);
  }

  lemma {:induction false} SafeExactlyUpto(l: LongLatency, a: Arch, inputs: seq<Option<Instr>>, states: seq<Core>,
                                           n: nat)
    requires WellFormedRun(l, a, inputs, states) && |states| == |inputs| + 1 && n <= |inputs|
    ensures SafeUpto(a, inputs, states, n) <==> RightUpto(a, inputs, states, n)
  {
    hide *;
    UptoUnfolds(a, inputs, states, n);
    if n > 0 {
      SafeExactlyUpto(l, a, inputs, states, n - 1);
      if SafeUpto(a, inputs, states, n - 1) {
        CycleExactly(l, a, inputs, states, n - 1);
      }
    }
  }

  ghost predicate TracesUpto(inputs: seq<Option<Instr>>, states: seq<Core>, n: nat)
    requires |states| == |inputs| + 1 && n <= |inputs|
  {
    forall k :: 0 <= k < n ==> TracesSafely(inputs, states, k)
  }

  ghost predicate ForwardsUpto(a: Arch, inputs: seq<Option<Instr>>, states: seq<Core>, n: nat)
    requires |states| == |inputs| + 1 && n <= |inputs|
  {
    forall k :: 0 <= k < n ==> ForwardsSafely(a, inputs, states, k)
  }

  ghost predicate DeliversUpto(a: Arch, inputs: seq<Option<Instr>>, states: seq<Core>, n: nat)
    requires |states| == |inputs| + 1 && n <= |inputs|
  {
    forall k :: 0 <= k < n ==> DeliversSafely(a, inputs, states, k)
  }

  lemma PartsUnfold(a: Arch, inputs: seq<Option<Instr>>, states: seq<Core>, n: nat)
    requires |states| == |inputs| + 1 && n <= |inputs|
    ensures SafeUpto(a, inputs, states, n) <==> TracesUpto(inputs, states, n) && ForwardsUpto(a, inputs, states, n)
    ensures n == 0 ==> ForwardsUpto(a, inputs, states, n) && DeliversUpto(a, inputs, states, n)
    ensures n > 0 ==>
              (ForwardsUpto(a, inputs, states, n)
               <==> ForwardsUpto(a, inputs, states, n - 1) && ForwardsSafely(a, inputs, states, n - 1))
    ensures n > 0 ==>
              (DeliversUpto(a, inputs, states, n)
               <==> DeliversUpto(a, inputs, states, n - 1) && DeliversSafely(a, inputs, states, n - 1))
    ensures n > 0 && TracesUpto(inputs, states, n) ==>
              TracesUpto(inputs, states, n - 1) && TracesSafely(inputs, states, n - 1)
  {
    hide TracesSafely, ForwardsSafely, DeliversSafely;
    if TracesUpto(inputs, states, n) && ForwardsUpto(a, inputs, states, n) {
      forall k | 0 <= k < n
        ensures CycleSafe(a, inputs, states, k)
      {
        assert TracesSafely(inputs, states, k) && ForwardsSafely(a, inputs, states, k);
      }
    }
    if SafeUpto(a, inputs, states, n) {
      forall k | 0 <= k < n
        ensures TracesSafely(inputs, states, k) && ForwardsSafely(a, inputs, states, k)
      {
        assert CycleSafe(a, inputs, states, k);
      }
    }
  }

  /** Masks are what delivery depends on: as long as no second destination does harm, every operand
      that is not taken back is delivered in every cycle if and only if every result forwarded to
      one is written whole. */
  lemma {:induction false} DeliveredExactly(l: LongLatency, a: Arch, inputs: seq<Option<Instr>>, states: seq<Core>,
                                            n: nat)
    requires WellFormedRun(l, a, inputs, states) && |states| == |inputs| + 1 && n <= |inputs|
    requires TracesUpto(inputs, states, n)
    ensures DeliversUpto(a, inputs, states, n) <==> ForwardsUpto(a, inputs, states, n)
  {
    hide *;
    PartsUnfold(a, inputs, states, n);
    if n > 0 {
      PartsUnfold(a, inputs, states, n - 1);
      DeliveredExactly(l, a, inputs, states, n - 1);
      if ForwardsUpto(a, inputs, states, n - 1) {
        CycleExactly(l, a, inputs, states, n - 1);
      }
    }
  }

  /** In decode of a safe run, unless the issue of the cycle before is taken back, a register not in
      flight reads the sequential value from the register file, and one that is bypassible will deliver
      the sequential value to execute in the next cycle exactly if its producer replaces the word. */
  lemma OperandsAreSequential(l: LongLatency, a: Arch, inputs: seq<Option<Instr>>, states: seq<Core>, n: nat,
                              r: Register)
    requires SafeRun(l, a, inputs, states) && n < |inputs| && !states[n].flushAll
    requires !TakenBack(states[|inputs|], n - 1)
    ensures var s := states[n];
            var h, b := Surviving(s), BypassInDecode(s);
            && (b.scoreboard[r].InRF() ==> s.rf[r] == Run(a, Program(h, n)).rf[r])
            && (SourceReady(b, r) ==> (SeesSequential(s, states[n + 1], a, r) <==> SourceWhole(s, h, a, r)))
  {
    hide *;
    RunOfSafe(l, a, inputs, states);
    var s, w := InvariantIn(l, a, inputs, states, n);
    ReachableFlow(l, a, inputs, states, n);
    CycleOfRun(l, a, inputs, states, n);
    TakenBackThen(l, a, inputs, states, n);
    SafeTrace(a, inputs, states, n);
    EntryReads(s, states[n + 1], a, r);
    if SourceReady(BypassInDecode(s), r) {
      SeesExactly(s, inputs[n], states[n + 1], Surviving(s), a, w, r);
    }
  }

  lemma SafeTrace(a: Arch, inputs: seq<Option<Instr>>, states: seq<Core>, n: nat)
    requires |states| == |inputs| + 1 && n < |inputs| && SafeUpto(a, inputs, states, |inputs|)
    requires !TakenBack(states[|inputs|], n - 1)
    ensures SecondDestinationSafe(states[n])
  {
    hide SecondDestinationSafe, ForwardsSafely, TakenBack;
    assert CycleSafe(a, inputs, states, n);
  }

  /** An entry in the register file is read from there. */
  lemma EntryReads(s: Core, s': Core, a: Arch, r: Register)
    ensures var b := BypassInDecode(s);
            b.scoreboard[r].InRF() ==>
              && SourceReady(b, r) && SourceWhole(s, Surviving(s), a, r)
              && (SeesSequential(s, s', a, r) <==> s.rf[r] == Run(a, Program(Surviving(s), s.cycle)).rf[r])
  {
    hide BypassInDecode, Run, Program, ReplacesWord, Surviving;
  }
}
