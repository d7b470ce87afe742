/** What a full run writes back is what the program runs: each instruction comes from where the one
    before it goes, although fetch has followed predictions. */
module ControlFlow {
  import opened Operations
  import opened Options
  import opened FuncSim
  import opened Scoreboard
  import opened Pipeline
  import opened Branching
  import opened FetchUnit
  import opened Timeline
  import opened Invariant
  import opened StepData
  import opened Flow
  import opened Timing
  import opened Theorems
  import opened FrontEnd

  /** Execution leaves where the program goes on. */
  ghost predicate ControlOk(isa: Isa, code: Code) {
    forall pc: Addr, bp: BPInterface, x: Word, y: Word ::
      var i := code(pc).(pc := pc, bp := bp);
      Resolves(i, isa.executor(i.code, x, y))
  }

  /** The misprediction of a survivor, if any, is on record; and its issue is in every state since. */
  lemma SurvivorThen(l: LongLatency, a: Arch, inputs: seq<Option<Instr>>, states: seq<Core>, n: nat, m: nat, t: nat)
    requires IsRun(l, a, inputs, states) && t < m <= n <= |inputs| && |states| == |inputs| + 1
    requires Alive(Surviving(states[n]), t)
    ensures Slot(Surviving(states[m]), t) == Slot(Surviving(states[n]), t)
    ensures m == t + 1 || m == t + 2 ==> !states[m].flushAll
    ensures m == t + 2 < n && t + 2 !in states[n].misses ==> !Branch(states[m]).miss
  {
    hide Branch, IsRun;
    MissesRecorded(l, a, inputs, states, n);
    MissesRecorded(l, a, inputs, states, m);
    IssuedPrefix(l, a, inputs, states, m, n);
    hide Surviving;
    SurvivingSlot(states[m], t);
    SurvivingSlot(states[n], t);
  }

  lemma ExecutedThen(s: Core, h: History, w: Work) returns (x: Word, y: Word)
    requires IssueOk(s, h, w) && Alive(h, s.cycle - 1)
    ensures Made(w, h, s.cycle - 1).res == s.isa.executor(h[s.cycle - 1].value.code, x, y)
  {
    var op := s.toExecute.value;
    x, y := Operand(s, op.vSrc0, s.command0), Operand(s, op.vSrc1, s.command1);
    assert ExecutedOp(s, op).res == s.isa.executor(op.instr.code, x, y);
  }

  lemma BranchedThen(s: Core, h: History, w: Work)
    requires ExecutedOk(s, h, w) && Works(s, w) && !s.flushAll && Alive(h, s.cycle - 2)
    ensures BranchAt(h, s.cycle - 2) && !Branch(s).miss ==> !BranchMisprediction(Made(w, h, s.cycle - 2))
    ensures Finished(w, h, s.cycle - 2).res.newPC == Made(w, h, s.cycle - 2).res.newPC
  {
    hide BranchMisprediction;
  }

  /** A survivor once it has been through Branch and the memory stage. */
  lemma SurvivorResolves(l: LongLatency, a: Arch, code: Code, inputs: seq<Option<Instr>>, states: seq<Core>, n: nat,
                         t: nat)
    requires IsRun(l, a, inputs, states) && n <= |inputs| && |states| == |inputs| + 1 && t + 2 < n
    requires ControlOk(a.isa, code) && Alive(Surviving(states[n]), t)
    requires IsFetched(code, Surviving(states[n])[t].value)
    ensures var h, w := Surviving(states[n]), WorkOf(states);
            && Resolves(h[t].value, Made(w, h, t).res)
            && Finished(w, h, t).res.newPC == Made(w, h, t).res.newPC == w.executed(t).res.newPC
            && (h[t].value.IsJump() && t + 2 !in states[n].misses ==> !BranchMisprediction(Made(w, h, t)))
  {
    hide *;
    var h, w := Surviving(states[n]), WorkOf(states);
    var s1, s2 := states[t + 1], states[t + 2];
    SurvivorThen(l, a, inputs, states, n, t + 1, t);
    SurvivorThen(l, a, inputs, states, n, t + 2, t);
    ReachableFlow(l, a, inputs, states, t + 1);
    ReachableFlow(l, a, inputs, states, t + 2);
    FlowParts(s1, Surviving(s1), w);
    FlowParts(s2, Surviving(s2), w);
    SamePlace(w, h, Surviving(s1), t);
    SamePlace(w, h, Surviving(s2), t);
    SameSlot(h, Surviving(s1), t);
    SameSlot(h, Surviving(s2), t);
    var x, y := ExecutedThen(s1, Surviving(s1), w);
    BranchedThen(s2, Surviving(s2), w);
    MadeIs(w, h, t);
    ResolvesHere(a.isa, code, h[t].value, x, y);
  }

  lemma SameSlot(h: History, h': History, t: int)
    requires Slot(h, t) == Slot(h', t) && Alive(h, t)
    ensures 0 <= t < |h| && h[t].Some? && t < |h'| && Alive(h', t) && h[t] == h'[t]
    ensures BranchAt(h, t) <==> h[t].value.IsJump()
    ensures BranchAt(h', t) <==> h[t].value.IsJump()
  {
  }

  lemma MadeIs(w: Work, h: History, t: int)
    requires Alive(h, t)
    ensures Made(w, h, t).res == w.executed(t).res && Made(w, h, t).instr == h[t].value
  {
  }

  lemma ResolvesHere(isa: Isa, code: Code, i: Instr, x: Word, y: Word)
    requires ControlOk(isa, code) && IsFetched(code, i)
    ensures Resolves(i, isa.executor(i.code, x, y))
  {
    hide Resolves;
    var j := code(i.pc).(pc := i.pc, bp := i.bp);
    assert Resolves(j, isa.executor(j.code, x, y));
  }

  // The record of write-backs

  /** In the record of write-backs, the one before is the survivor before. */
  lemma Predecessor(r: seq<Retirement>, w: Work, h: History, n: int, l: LongLatency, k: nat)
    requires Holds(r, w, h, n, l) && k < |r|
    ensures Alive(h, r[k].op.born) && r[k].op == Finished(w, h, r[k].op.born) && r[k].op.born < n
    ensures LastIssue(h, r[k].op.born) == if k == 0 then -1 else r[k - 1].op.born
  {
    hide Finished, WritebackCycle, Alive;
    var u := r[k].op.born;
    assert IsWritebackOf(r[k], w, h, u, l);
    assert k > 0 ==> IsWritebackOf(r[k - 1], w, h, r[k - 1].op.born, l);
    var t := LastIssue(h, u);
    if t >= 0 {
      var j :| 0 <= j < |r| && r[j].op.born == t;
      assert j < k;
      assert r[k - 1].op.born <= t;
    }
  }

  /** The program goes from one write-back to the next. */
  ghost predicate FollowedBy(code: Code, start: Addr, r: seq<Retirement>, k: nat)
    requires k < |r|
  {
    IsFetched(code, r[k].op.instr) && r[k].op.instr.pc == if k == 0 then start else r[k - 1].op.res.newPC
  }

  lemma DueIs(m: set<nat>, h: History, w: Work, start: Addr, u: int)
    requires ChainOk(m, h, w, start) && Alive(h, u)
    ensures var t, pc := LastIssue(h, u), h[u].value.pc;
            if t < 0 then pc == start
            else if t + 2 in m then pc == w.executed(t).res.newPC
            else Follows(h[t].value, pc)
  {
    hide Follows;
    assert Due(m, h, w, start, u, Slot(h, u).value.pc);
  }

  /** What is followed by something that is not to be taken back was followed by its own successor. */
  lemma FollowsItself(i: Instr, x: Op, pc: Addr)
    requires x.instr == i && PredictionOk(i) && Resolves(i, x.res) && Follows(i, pc)
    requires i.IsJump() ==> !BranchMisprediction(x)
    ensures pc == x.res.newPC
  {
    hide BranchMisprediction, DecodeMisprediction, Resolves, PredictionOk, NextFetched;
    UnflaggedIsFollowed(x);
    if Doomed(i) {
      OthersAreFlagged(x);
    }
  }

  lemma FetchedIsPredicted(code: Code, i: Instr)
    requires IsFetched(code, i)
    ensures PredictionOk(i)
  {
  }

  lemma CommittedEarlier(s: Core, h: History, w: Work, u: int)
    requires CommitOk(s, h, w) && u < Committed(s) && Alive(h, u)
    ensures u + 2 < s.cycle
  {
    hide RetiredUpto, Committed;
    assert WritebackCycle(h, u, s.longLatency) < s.cycle;
  }

  lemma WritebackFollows(l: LongLatency, a: Arch, code: Code, start: Addr, fetches: seq<FetchPorts>,
                         inputs: seq<Option<Instr>>, states: seq<Core>, n: nat, k: nat)
    requires IsFullRun(l, a, code, start, fetches, inputs, states) && n <= |inputs|
    requires |states| == |inputs| + 1 == |fetches| && NoRedirectWaits(inputs, states, n) && ControlOk(a.isa, code)
    requires k < |states[n].retired|
    ensures FollowedBy(code, start, states[n].retired, k)
  {
    hide *;
    FullParts(l, a, code, start, fetches, inputs, states);
    var s, w := FlowIn(l, a, inputs, states, n);
    var h, r := Surviving(s), s.retired;
    ReachableFront(l, a, code, start, fetches, inputs, states, n);
    FrontParts(fetches[n], s, h, w, start);
    RetiredRecord(s, h, w);
    RetiredMembers(w, h, Committed(s), l);
    Predecessor(r, w, h, Committed(s), l, k);
    var u := r[k].op.born;
    BornThen(w, h, u);
    IssuedAreFetched(l, a, code, start, fetches, inputs, states, n, u);
    CommittedEarlier(s, h, w, u);
    DueIs(s.misses, h, w, start, u);
    if k > 0 {
      var t := r[k - 1].op.born;
      Predecessor(r, w, h, Committed(s), l, k - 1);
      BornThen(w, h, t);
      IssuedAreFetched(l, a, code, start, fetches, inputs, states, n, t);
      SurvivorResolves(l, a, code, inputs, states, n, t);
      if t + 2 !in s.misses {
        MadeIs(w, h, t);
        SameSlot(h, h, t);
        SameSlot(h, h, u);
        FetchedIsPredicted(code, h[t].value);
        FollowsItself(h[t].value, Made(w, h, t), h[u].value.pc);
      }
    }
    FollowedHere(code, start, r, k);
  }

  lemma FollowedHere(code: Code, start: Addr, r: seq<Retirement>, k: nat)
    requires k < |r| && IsFetched(code, r[k].op.instr)
    requires r[k].op.instr.pc == if k == 0 then start else r[k - 1].op.res.newPC
    ensures FollowedBy(code, start, r, k)
  {
  }

  /** Whatever is predicted and whatever latency the long unit has: from the start address on, every
      instruction written back is the one of the program at the address the one before it went to, if
      no redirect of decode that could be the last word is delayed by a stall. */
  lemma WritebacksFollowControl(l: LongLatency, a: Arch, code: Code, start: Addr, fetches: seq<FetchPorts>,
                                inputs: seq<Option<Instr>>, states: seq<Core>, n: nat)
    requires IsFullRun(l, a, code, start, fetches, inputs, states) && n <= |inputs|
    requires |states| == |inputs| + 1 && NoRedirectWaits(inputs, states, n) && ControlOk(a.isa, code)
    ensures forall k :: 0 <= k < |states[n].retired| ==> FollowedBy(code, start, states[n].retired, k)
  {
    hide *;
    FullParts(l, a, code, start, fetches, inputs, states);
    forall k | 0 <= k < |states[n].retired|
      ensures FollowedBy(code, start, states[n].retired, k)
    {
      WritebackFollows(l, a, code, start, fetches, inputs, states, n, k);
    }
  }

  // The sequential run by program counter

  /** Where the sequential simulator goes on once `p` has run from `start`. */
  function PcAfter(a: Arch, start: Addr, p: seq<Instr>): Addr {
    if p == [] then start else Executed(Run(a, p[..|p| - 1]), p[|p| - 1]).newPC
  }

  /** `p` is what the sequential simulator fetches and runs from `start`; predictions do not matter. */
  ghost predicate RunsProgram(code: Code, a: Arch, start: Addr, p: seq<Instr>) {
    p == [] ||
    var before, last := p[..|p| - 1], p[|p| - 1];
    RunsProgram(code, a, start, before) &&
    var pc := PcAfter(a, start, before);
    last == code(pc).(pc := pc, bp := last.bp)
  }

  lemma RunsOneMore(code: Code, a: Arch, start: Addr, p: seq<Instr>, i: Instr)
    requires RunsProgram(code, a, start, p) && IsFetched(code, i) && i.pc == PcAfter(a, start, p)
    ensures RunsProgram(code, a, start, p + [i])
  {
    hide PcAfter, PredictionOk;
    assert (p + [i])[..|p|] == p;
  }

  lemma {:induction false} RetiredRunsProgram(code: Code, a: Arch, start: Addr, r: seq<Retirement>)
    requires ResultsSequential(a, r) && forall k :: 0 <= k < |r| ==> FollowedBy(code, start, r, k)
    ensures RunsProgram(code, a, start, RetiredInstrs(r))
    ensures PcAfter(a, start, RetiredInstrs(r)) == if r == [] then start else r[|r| - 1].op.res.newPC
  {
    hide IsFetched, Run, Executed;
    if r != [] {
      var n := |r| - 1;
      assert forall k :: 0 <= k < n ==> FollowedBy(code, start, r, k) ==> FollowedBy(code, start, r[..n], k);
      RetiredRunsProgram(code, a, start, r[..n]);
      assert FollowedBy(code, start, r, n);
      var p, last := RetiredInstrs(r[..n]), r[n].op;
      RunsOneMore(code, a, start, p, last.instr);
      assert (p + [last.instr])[..|p|] == p;
      OutcomeGoesOn(Run(a, p), last.instr);
    }
  }

  lemma OutcomeGoesOn(a: Arch, i: Instr)
    ensures Outcome(a, i).newPC == Executed(a, i).newPC
  {
    hide Executed;
  }

  /** With its branch prediction the pipeline runs the program as the sequential simulator does: at
      any point of a safe run, what has been written back is what that simulator fetches and executes
      from the start address, and the registers are what it leaves. */
  lemma PipelineRunsProgram(l: LongLatency, a: Arch, code: Code, start: Addr, fetches: seq<FetchPorts>,
                            inputs: seq<Option<Instr>>, states: seq<Core>, n: nat)
    requires IsFullRun(l, a, code, start, fetches, inputs, states) && n <= |inputs|
    requires SafeRun(l, a, inputs, states) && NoRedirectWaits(inputs, states, n) && ControlOk(a.isa, code)
    ensures var s := states[n];
            RunsProgram(code, a, start, RetiredInstrs(s.retired)) && s.rf == Run(a, RetiredInstrs(s.retired)).rf
  {
    hide *;
    FullParts(l, a, code, start, fetches, inputs, states);
    WritebacksFollowControl(l, a, code, start, fetches, inputs, states, n);
    PipelineRefinesFuncSim(l, a, inputs, states, n);
    RetiredRunsProgram(code, a, start, states[n].retired);
  }
}
