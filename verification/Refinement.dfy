/** The values of a safe run are those of the sequential run: one cycle keeps the whole invariant. */
module Refinement {
  import opened Operations
  import opened Options
  import opened RegisterFile
  import opened FuncSim
  import opened Scoreboard
  import opened Pipeline
  import opened Timeline
  import opened Invariant
  import opened Scheduling
  import opened StepRecord
  import opened StepData
  import opened StepStages
  import opened StepIssue
  import opened Flow

  lemma ResetInv(l: LongLatency, a: Arch, w: Work)
    ensures var s := Reset(l, a); InvAt(s, Surviving(s), a, w)
  {
    hide FlowAt, ScoreboardOk;
    ResetFlow(l, a, w);
    ResetFields(l, a);
  }

  // Well-formed instructions

  ghost predicate InputsWellFormed(s: Core, fetched: Option<Instr>) {
    && (s.stalled.Some? ==> s.stalled.value.WellFormed())
    && (fetched.Some? ==> fetched.value.WellFormed())
  }

  lemma WellFormedKept(h: History, h': History, c: int, issue: Option<Instr>, miss: bool)
    requires WellFormedHistory(h) && Grows(h, h', c, issue, miss)
    requires issue.Some? ==> issue.value.WellFormed()
    ensures WellFormedHistory(h')
  {
    forall t | Alive(h', t)
      ensures h'[t].value.WellFormed()
    {
      if t < c {
        assert Slot(h', t) == Slot(h, t);
      }
    }
  }

  // What the stages compute

  lemma SpecPrefix(a: Arch, h: History, h': History, t: int)
    requires AgreeUpto(h, h', t + 1) && Alive(h, t)
    ensures Alive(h', t) && SpecOp(a, h', t) == SpecOp(a, h, t) && SpecFinal(a, h', t) == SpecFinal(a, h, t)
  {
    assert Slot(h', t) == Slot(h, t);
    AtPrefix(a, h, h', t);
  }

  /** What was right stays right in the next cycle's history. */
  lemma RightKept(w: Work, h: History, h': History, a: Arch, t: int)
    requires AgreeUpto(h, h', t + 1) && Alive(h, t)
    ensures Alive(h', t) && (Right(w, h', a, t) <==> Right(w, h, a, t))
    ensures Finished(w, h', t) == SpecFinal(a, h', t) <==> Finished(w, h, t) == SpecFinal(a, h, t)
  {
    hide Made, Finished, SpecOp, SpecFinal;
    SpecPrefix(a, h, h', t);
    assert Slot(h', t) == Slot(h, t);
    SamePlace(w, h, h', t);
  }

  /** The final result is right once the memory stage has been passed. */
  lemma FinalRight(s: Core, h: History, a: Arch, w: Work, t: int)
    requires FlushOk(s, h) && Works(s, w) && ValuesOk(s, h, a, w) && (!s.flushAll ==> ExecutedOk(s, h, w))
    requires Alive(h, t) && t <= s.cycle - 2
    ensures Finished(w, h, t) == SpecFinal(a, h, t)
  {
    hide At, Branch, Executed, ExecutedOk, Works;
    if t == s.cycle - 2 && h[t].value.IsLoad() {
      assert !s.flushAll;
      AccessedIsRight(s, h, a, w);
    }
  }

  lemma MemEffect(s: Core, h: History, a: Arch, w: Work)
    requires FlushOk(s, h) && ValuesOk(s, h, a, w) && (!s.flushAll ==> ExecutedOk(s, h, w))
    ensures Mem(s).mem == At(a, h, s.cycle - 1).mem
  {
    hide ValuesOk, SpecOp, Made;
    var t := s.cycle - 2;
    ValuesParts(s, h, a, w);
    MemoryStep(a, h, t);
    if s.flushAll {
      assert !Alive(h, t);
    } else if MemAt(h, t) {
      EarlierIsRight(s, h, a, w, t);
      SpecOpParts(a, h, t);
      hide At;
    } else {
      assert s.toMem == None;
    }
  }

  lemma EarlierIsRight(s: Core, h: History, a: Arch, w: Work, t: int)
    requires ValuesOk(s, h, a, w) && t < s.cycle - 1 && Alive(h, t)
    ensures Made(w, h, t) == SpecOp(a, h, t)
  {
    hide At, Made, SpecOp, Finished, SpecFinal, Branch;
  }

  lemma SpecOpParts(a: Arch, h: History, t: int)
    requires Alive(h, t)
    ensures var x, before, i := SpecOp(a, h, t), At(a, h, t), h[t].value;
            x.instr == i && x.vSrc1 == before.rf[i.src1] && x.res == Executed(before, i)
  {
    hide At, Executed;
  }

  /** What the instruction issued at `t` does to memory in the sequential run. */
  lemma MemoryStep(a: Arch, h: History, t: int)
    ensures At(a, h, t + 1).mem
         == if t >= 0 && MemAt(h, t) then
              var before, i := At(a, h, t), h[t].value;
              LoadStoreMemory(a.isa, i, before.rf[i.src1], Executed(before, i), before.mem)
            else At(a, h, t).mem
  {
    hide WriteDst, Outcome, Executed;
  }

  lemma {:induction false} NothingBetween(a: Arch, h: History, m: int, n: int)
    requires m <= n && forall t :: m <= t < n ==> !Alive(h, t)
    ensures At(a, h, n) == At(a, h, m)
    decreases n - m
  {
    hide Step;
    if m < n {
      NothingBetween(a, h, m, n - 1);
      assert !Alive(h, n - 1);
    }
  }

  lemma OneWrittenBack(rf: Registers, x: Op)
    ensures WrittenBack(rf, [x]) == WriteDst(rf, x.instr, x.res)
  {
    assert [x][1..] == [];
  }

  lemma NoneWrittenBack(rf: Registers)
    ensures WrittenBack(rf, []) == rf
  {
  }

  lemma SurvivorStep(a: Arch, h: History, p: int)
    requires Alive(h, p)
    ensures At(a, h, p + 1).rf == WriteDst(At(a, h, p).rf, SpecFinal(a, h, p).instr, SpecFinal(a, h, p).res)
    ensures SpecFinal(a, h, p).born == p
  {
    hide WriteDst, Outcome, Executed, LoadStoreMemory;
  }

  /** What write-back makes of the register file. */
  lemma RegistersKept(s: Core, s': Core, h: History, h': History, a: Arch, w: Work, issue: Option<Instr>, miss: bool)
    requires |h| == s.cycle && InOrder(h, s.longLatency) && WritebackInputsOk(s, h, w) && CommitOk(s, h, w)
    requires Grows(h, h', s.cycle, issue, miss)
    requires forall t :: t <= s.cycle - 2 && Alive(h, t) ==> Finished(w, h, t) == SpecFinal(a, h, t)
    requires s.rf == At(a, h, Committed(s)).rf
    requires s'.rf == WrittenBack(s.rf, ReadInstructions(s))
    requires s'.retired == s.retired + Retirements(ReadInstructions(s), s.cycle)
    ensures s'.rf == At(a, h', Committed(s')).rf
  {
    hide InOrder, Grows, WritebackInputsOk, Finished, SpecFinal, WrittenBack, Retirements, ReadInstructions, At;
    hide WritebackCycle, WriteDst, RetiredUpto, AgreeUpto;
    var n := Committed(s);
    var p := WritebackReads(s, h, w);
    if p == -1 {
      NoneWrittenBack(s.rf);
      NoneNow(s.cycle);
      assert s'.retired == s.retired;
      CommittedBefore(s, h, w);
      AgreesEarly(h, h', s.cycle, issue, miss, n);
      AtPrefix(a, h, h', n);
    } else {
      var x := Finished(w, h, p);
      OneWrittenBack(s.rf, x);
      RetiredNow(x, s.cycle);
      BornThen(w, h, p);
      NothingLeft(n, s.cycle, h, s.longLatency, p);
      NothingBetween(a, h, n, p);
      SurvivorStep(a, h, p);
      AgreesEarly(h, h', s.cycle, issue, miss, p + 1);
      AtPrefix(a, h, h', p + 1);
    }
  }

  lemma AgreesEarly(h: History, h': History, c: int, issue: Option<Instr>, miss: bool, n: int)
    requires Grows(h, h', c, issue, miss) && (n <= c - 1 || n == 0)
    ensures AgreeUpto(h, h', n)
  {
  }

  lemma CommittedBefore(s: Core, h: History, w: Work)
    requires CommitOk(s, h, w)
    ensures Committed(s) <= s.cycle - 1 || Committed(s) == 0
  {
    hide RetiredUpto;
    var n := Committed(s);
    assert n > 0 ==> n + 1 <= WritebackCycle(h, n - 1, s.longLatency) < s.cycle;
  }

  // What decode sends on

  /** Issued in the cycle of `s`, and not about to be taken back in the next one, an instruction will
      execute as in the sequential run. */
  lemma IssueRight(s: Core, s': Core, h: History, h': History, a: Arch, w: Work, fetched: Option<Instr>)
    requires FlowAt(s, h, w) && Works(s, w) && ValuesOk(s, h, a, w) && !s.flushAll && ScoreboardOk(s, h)
    requires NextIs(s, fetched, s') && Works(s', w) && Grows(h, h', s.cycle, IssuedInstr(s, fetched), false)
    requires !Branch(s).miss && SecondDestinationSafe(s) && ForwardingSafe(s, h, fetched, a)
    requires IssuedInstr(s, fetched).Some?
    ensures Alive(h', s.cycle) && Right(w, h', a, s.cycle)
  {
    hide *;
    FlowParts(s, h, w);
    NotStalled(s, fetched);
    SourcesReady(BypassInDecode(s), IssuedInstr(s, fetched).value, s.longLatency);
    SafeSources(s, h, fetched, a);
    var i := IssuedInstr(s, fetched).value;
    TrackedInDecode(s, h, i.src0);
    TrackedInDecode(s, h, i.src1);
    AssembleInFlight(s, h, w);
    SentAndWritten(s, fetched, s');
    OperandDelivered(s, s', h, a, w, i.src0);
    OperandDelivered(s, s', h, a, w, i.src1);
    AgreesNow(h, h', s.cycle, IssuedInstr(s, fetched));
    AtPrefix(a, h, h', s.cycle);
    ValuesParts(s, h, a, w);
    SameIsa(a, h', s.cycle);
    IssuedOp(s, s', fetched, At(a, h', s.cycle));
    IssuedIsRight(s, s', h', a, w, i);
  }

  lemma SameIsa(a: Arch, h: History, t: int)
    ensures At(a, h, t).isa == a.isa
  {
  }

  lemma AgreesNow(h: History, h': History, c: int, issue: Option<Instr>)
    requires Grows(h, h', c, issue, false)
    ensures AgreeUpto(h, h', c) && Slot(h', c) == issue
    ensures issue.Some? ==> Alive(h', c)
  {
  }

  lemma SafeSources(s: Core, h: History, fetched: Option<Instr>, a: Arch)
    requires IssuedInstr(s, fetched).Some? && ForwardingSafe(s, h, fetched, a)
    ensures var i := IssuedInstr(s, fetched).value; SourceWhole(s, h, a, i.src0) && SourceWhole(s, h, a, i.src1)
  {
  }

  lemma SourcesReady(b: BypassState, i: Instr, l: LongLatency)
    requires !IsStall(b, i, l)
    ensures SourceReady(b, i.src0) && SourceReady(b, i.src1)
  {
  }

  lemma AssembleInFlight(s: Core, h: History, w: Work)
    requires FlowAt(s, h, w) && Works(s, w) && !s.flushAll
    ensures InFlightOk(s, h, w)
  {
    hide IssueOk, ExecutedOk, LongUnitOk, WritebackInputsOk, FlushOk, InOrder, Works, CommitOk, AccessOk, LatencyOk;
    hide UntracedOk;
  }

  lemma SentAndWritten(s: Core, fetched: Option<Instr>, s': Core)
    requires NextIs(s, fetched, s')
    ensures s.Shaped() && PortsWritten(s, s') && DecodeSent(s, s', fetched)
    ensures s'.cycle == s.cycle + 1 && s'.isa == s.isa
  {
  }

  lemma IssuedIsRight(s: Core, s': Core, h': History, a: Arch, w: Work, i: Instr)
    requires Slot(h', s.cycle) == Some(i) && s'.cycle == s.cycle + 1 && Works(s', w) && s'.toExecute.Some?
    requires var before := At(a, h', s.cycle);
             ExecutedOp(s', s'.toExecute.value)
             == Op(i, s.cycle, before.rf[i.src0], before.rf[i.src1], Executed(before, i))
    ensures Alive(h', s.cycle) && Right(w, h', a, s.cycle)
  {
    hide At, Executed, ExecutedOp;
  }

  // One cycle

  /** What a cycle may be asked to be: its trace harmless, and its forwarding too unless a
      misprediction takes back the issue. */
  ghost predicate StepSafe(s: Core, s': Core, h: History, fetched: Option<Instr>, a: Arch) {
    && TraceHarmless(s)
    && (!Branch(s).miss && !Branch(s').miss ==> ForwardingSafe(s, h, fetched, a))
  }

  lemma StepValues(s: Core, s': Core, h: History, h': History, fetched: Option<Instr>, a: Arch, w: Work)
    requires FlowAt(s, h, w) && Works(s, w) && ValuesOk(s, h, a, w) && (!s.flushAll ==> ScoreboardOk(s, h))
    requires NextIs(s, fetched, s') && Works(s', w) && Histories(s, s', h, h', fetched)
    requires InputsWellFormed(s, fetched) && StepSafe(s, s', h, fetched, a)
    ensures ValuesOk(s', h', a, w)
  {
    hide FlowAt, Works, ValuesOk, ScoreboardOk, NextIs, Histories, InputsWellFormed, ForwardingSafe, Finished, At;
    hide SecondDestinationSafe, Branch, Right, SpecFinal, Surviving, WellFormedHistory, InOrder;
    FlowParts(s, h, w);
    NextParts(s, fetched, s');
    HistoriesParts(s, s', h, h', fetched);
    IssueWellFormed(s, fetched);
    ValuesParts(s, h, a, w);
    NextData(s, fetched, s');
    WellFormedKept(h, h', s.cycle, IssuedInstr(s, fetched), Branch(s).miss);
    forall t | t <= s.cycle - 2 && Alive(h, t)
      ensures Finished(w, h, t) == SpecFinal(a, h, t)
    {
      FinalRight(s, h, a, w, t);
    }
    RegistersKept(s, s', h, h', a, w, IssuedInstr(s, fetched), Branch(s).miss);
    MemEffect(s, h, a, w);
    AgreesBefore(h, h', s.cycle, IssuedInstr(s, fetched), Branch(s).miss);
    AtPrefix(a, h, h', s.cycle - 1);
    RightUpto(s, h, h', a, w, IssuedInstr(s, fetched));
    if Alive(h', s.cycle) && !Branch(s').miss {
      NewestSurvives(h, h', s.cycle, IssuedInstr(s, fetched), Branch(s).miss);
      NotStalled(s, fetched);
      IssueRight(s, s', h, h', a, w, fetched);
    }
    AssembleValues(s', h', a, w);
  }

  lemma AgreesBefore(h: History, h': History, c: int, issue: Option<Instr>, miss: bool)
    requires Grows(h, h', c, issue, miss)
    ensures AgreeUpto(h, h', c - 1)
  {
  }

  lemma NewestSurvives(h: History, h': History, c: int, issue: Option<Instr>, miss: bool)
    requires Grows(h, h', c, issue, miss) && Alive(h', c)
    ensures !miss && issue.Some?
  {
  }

  lemma IssueWellFormed(s: Core, fetched: Option<Instr>)
    requires InputsWellFormed(s, fetched)
    ensures IssuedInstr(s, fetched).Some? ==> IssuedInstr(s, fetched).value.WellFormed()
  {
    if IssuedInstr(s, fetched).Some? {
      NotStalled(s, fetched);
    }
  }

  lemma NextData(s: Core, fetched: Option<Instr>, s': Core)
    requires NextIs(s, fetched, s')
    ensures s'.rf == WrittenBack(s.rf, ReadInstructions(s)) && s'.mem == Mem(s).mem
    ensures s'.retired == s.retired + Retirements(ReadInstructions(s), s.cycle)
  {
  }

  lemma RightUpto(s: Core, h: History, h': History, a: Arch, w: Work, issue: Option<Instr>)
    requires |h| == s.cycle && Grows(h, h', s.cycle, issue, Branch(s).miss) && ValuesOk(s, h, a, w)
    requires forall t :: t <= s.cycle - 2 && Alive(h, t) ==> Finished(w, h, t) == SpecFinal(a, h, t)
    ensures forall t :: t < s.cycle && Alive(h', t) ==> Right(w, h', a, t)
    ensures forall t :: t < s.cycle - 1 && Alive(h', t) ==> Finished(w, h', t) == SpecFinal(a, h', t)
  {
    hide Right, SpecFinal, Finished, Branch, At;
    forall t | t < s.cycle && Alive(h', t)
      ensures Right(w, h', a, t)
      ensures t < s.cycle - 1 ==> Finished(w, h', t) == SpecFinal(a, h', t)
    {
      assert Slot(h', t) == Slot(h, t);
      AgreesFor(h, h', s.cycle, issue, Branch(s).miss, t);
      RightKept(w, h, h', a, t);
    }
  }

  lemma AgreesFor(h: History, h': History, c: int, issue: Option<Instr>, miss: bool, t: int)
    requires Grows(h, h', c, issue, miss) && t < c && Alive(h', t)
    ensures AgreeUpto(h, h', t + 1) && (t == c - 1 ==> !miss)
  {
  }

  lemma AssembleValues(s: Core, h: History, a: Arch, w: Work)
    requires s.isa == a.isa && WellFormedHistory(h)
    requires forall t :: t < s.cycle - 1 && Alive(h, t) ==> Right(w, h, a, t)
    requires forall t :: t < s.cycle - 2 && Alive(h, t) ==> Finished(w, h, t) == SpecFinal(a, h, t)
    requires Alive(h, s.cycle - 1) && !Branch(s).miss ==> Right(w, h, a, s.cycle - 1)
    requires s.rf == At(a, h, Committed(s)).rf && s.mem == At(a, h, s.cycle - 2).mem
    ensures ValuesOk(s, h, a, w)
  {
    hide Right, SpecFinal, Finished, Branch, At, WellFormedHistory;
  }

  /** Every cycle keeps the invariant, whatever fetch delivers, if what is wrong in it is taken back. */
  lemma StepKeepsInv(s: Core, s': Core, h: History, fetched: Option<Instr>, a: Arch, w: Work)
    requires InvAt(s, h, a, w) && Works(s, w) && NextIs(s, fetched, s') && Works(s', w)
    requires InputsWellFormed(s, fetched) && StepSafe(s, s', h, fetched, a)
    ensures InvAt(s', Surviving(s'), a, w) && Histories(s, s', h, Surviving(s'), fetched)
  {
    hide FlowAt, Works, ValuesOk, ScoreboardOk, NextIs, Histories, InputsWellFormed, ForwardingSafe;
    hide SecondDestinationSafe, Branch, Surviving, InOrder;
    var h' := Surviving(s');
    StepKeepsFlow(s, s', h, fetched, w);
    FlowParts(s, h, w);
    NextParts(s, fetched, s');
    HistoriesParts(s, s', h, h', fetched);
    if !s'.flushAll {
      StepScoreboard(s, s', h, h', IssuedInstr(s, fetched));
    }
    StepValues(s, s', h, h', fetched, a, w);
  }
}
