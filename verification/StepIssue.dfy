/** One cycle: what decode issues will reach execute with the results of its producers, which are the
    operands of the sequential run exactly if the producers replace the word. */
module StepIssue {
  import opened Operations
  import opened Options
  import opened FuncSim
  import opened Scoreboard
  import opened Pipeline
  import opened Timeline
  import opened Invariant
  import opened StepData
  import opened StepStages

  /** The parts of the invariant that locate the instructions in flight. */
  ghost predicate InFlightOk(s: Core, h: History, w: Work) {
    && s.Shaped() && |h| == s.cycle && !s.flushAll
    && InOrder(h, s.longLatency) && FlushOk(s, h) && Works(s, w)
    && IssueOk(s, h, w) && ExecutedOk(s, h, w) && LongUnitOk(s, h, w) && WritebackInputsOk(s, h, w)
  }

  lemma InFlightParts(s: Core, h: History, w: Work)
    requires InFlightOk(s, h, w)
    ensures s.Shaped() && |h| == s.cycle && !s.flushAll && InOrder(h, s.longLatency) && FlushOk(s, h) && Works(s, w)
    ensures IssueOk(s, h, w) && ExecutedOk(s, h, w) && LongUnitOk(s, h, w) && WritebackInputsOk(s, h, w)
  {
    hide IssueOk, ExecutedOk, LongUnitOk, WritebackInputsOk, FlushOk, InOrder, Works;
  }

  function DirectionAt(i: Instr, age: int, l: LongLatency): nat
    requires 1 <= age <= Latency(i, l) + 1
  {
    BypassCommand(StageAt(i, age, l), l - 1).Direction()
  }

  /** The port a forwarded result is commanded from, by class and age. */
  lemma ForwardingPorts(h: History, p: int, r: Register, c: int, l: LongLatency) returns (d: nat)
    requires Alive(h, p) && p < c <= WritebackCycle(h, p, l) && Forwarded(h[p].value, r, c - p, l)
    ensures d == DirectionAt(h[p].value, c - p, l)
    ensures var i := h[p].value;
            || (d == 3 && WritebackCycle(h, p, l) == c)
            || (d == 0 && p == c - 1 && !LongAt(h, p) && !i.IsLoad())
            || (d == 1 && p == c - l && LongAt(h, p) && !i.IsLoad())
            || (d == 2 && p == c - 2 && MemAt(h, p))
            || (d == 4 && p == c - 2 && BranchAt(h, p))
  {
    d := DirectionAt(h[p].value, c - p, l);
  }

  lemma WrittenPorts(s: Core, s': Core)
    requires s.Shaped() && PortsWritten(s, s')
    ensures s'.bypassExecute == Execute(s).bypassExecute && s'.bypassLong == Execute(s).bypassLong
    ensures s'.bypassMem == (if Mem(s).toWriteback.Some? then [OutputOf(Mem(s).toWriteback.value)] else [])
    ensures s'.bypassWriteback == Outputs(ReadInstructions(s))
    ensures s'.bypassBranch == (if Branch(s).toWriteback.Some? then [OutputOf(Branch(s).toWriteback.value)] else [])
  {
    hide Execute, Mem, Branch, ReadInstructions, Outputs, OutputOf;
  }

  lemma FromWriteback(s: Core, s': Core, h: History, w: Work, p: int)
    requires InOrder(h, s.longLatency) && WritebackInputsOk(s, h, w)
    requires s'.bypassWriteback == Outputs(ReadInstructions(s))
    requires Alive(h, p) && WritebackCycle(h, p, s.longLatency) == s.cycle
    ensures BypassPort(s', 3) == [OutputOf(Finished(w, h, p))]
  {
    hide InOrder, WritebackInputsOk, ReadInstructions, Finished, WritebackCycle;
    var q := WritebackReads(s, h, w);
    assert q == p;
  }

  lemma FromExecute(s: Core, s': Core, h: History, w: Work, p: int)
    requires s.Shaped() && !s.flushAll && IssueOk(s, h, w) && LongUnitOk(s, h, w)
    requires s'.bypassExecute == Execute(s).bypassExecute && s'.bypassLong == Execute(s).bypassLong
    requires Alive(h, p) && !h[p].value.IsLoad()
    ensures p == s.cycle - 1 && !LongAt(h, p) ==> BypassPort(s', 0) == [OutputOf(Finished(w, h, p))]
    ensures p == s.cycle - s.longLatency && LongAt(h, p) ==> BypassPort(s', 1) == [OutputOf(Finished(w, h, p))]
  {
    hide IssueOk, LongUnitOk, Made, Finished, Execute, ClockedSavedFlush;
    FinalIsExecuted(w, h, p);
    ExecuteOutput(s, h, w);
  }

  lemma FromMemOrBranch(s: Core, s': Core, h: History, w: Work)
    requires !s.flushAll && FlushOk(s, h) && ExecutedOk(s, h, w) && Works(s, w)
    requires s'.bypassMem == (if Mem(s).toWriteback.Some? then [OutputOf(Mem(s).toWriteback.value)] else [])
    requires s'.bypassBranch == (if Branch(s).toWriteback.Some? then [OutputOf(Branch(s).toWriteback.value)] else [])
    ensures MemAt(h, s.cycle - 2) ==> BypassPort(s', 2) == [OutputOf(Finished(w, h, s.cycle - 2))]
    ensures BranchAt(h, s.cycle - 2) ==> BypassPort(s', 4) == [OutputOf(Finished(w, h, s.cycle - 2))]
  {
    hide FlushOk, ExecutedOk, Works, Made, Finished, Mem, Branch, BranchAt, MemAt, OutputOf;
    MemOutput(s, h, w);
    BranchOutput(s, h, w);
    OneStage(h, s.cycle - 2);
    if BranchAt(h, s.cycle - 2) {
      FinalIsExecuted(w, h, s.cycle - 2);
    }
  }

  /** Marked bypassible, an entry names the port that carries its producer's first result next cycle. */
  lemma PortCarriesResult(s: Core, s': Core, h: History, w: Work, p: int, r: Register)
    requires InFlightOk(s, h, w) && PortsWritten(s, s')
    requires Alive(h, p) && p < s.cycle && WritebackCycle(h, p, s.longLatency) >= s.cycle
    requires Forwarded(h[p].value, r, s.cycle - p, s.longLatency)
    ensures BypassPort(s', DirectionAt(h[p].value, s.cycle - p, s.longLatency)) == [OutputOf(Finished(w, h, p))]
  {
    hide *;
    InFlightParts(s, h, w);
    var c, l := s.cycle, s.longLatency;
    var d := ForwardingPorts(h, p, r, c, l);
    WrittenPorts(s, s');
    if d == 3 {
      FromWriteback(s, s', h, w, p);
    } else if d <= 1 {
      FromExecute(s, s', h, w, p);
    } else {
      FromMemOrBranch(s, s', h, w);
    }
  }

  lemma ReadyMeansForwarded(b: BypassState, i: Instr, r: Register, age: int, l: LongLatency)
    requires EntryMatches(b.scoreboard[r], i, r, age, l) && SourceReady(b, r)
    ensures Forwarded(i, r, age, l)
  {
  }

  lemma ReadWhenUntraced(s: Core, s': Core, b: BypassState, r: Register)
    requires b.scoreboard[r] == UNTRACED
    ensures SourceCommand(s, b, r).None?
    ensures Operand(s', SourceRead(s, b, r), SourceCommand(s, b, r)) == s.rf[r]
  {
  }

  lemma BypassedWhenTracked(s: Core, s': Core, b: BypassState, i: Instr, r: Register, age: int, x: Op)
    requires EntryMatches(b.scoreboard[r], i, r, age, s.longLatency) && SourceReady(b, r)
    requires BypassPort(s', DirectionAt(i, age, s.longLatency)) == [OutputOf(x)]
    ensures SourceCommand(s, b, r).Some?
    ensures Operand(s', SourceRead(s, b, r), SourceCommand(s, b, r)) == x.res.v0
  {
  }

  /** Sent to a bypass port for its operand, a source gets the first result of its youngest producer,
      whatever the masks. */
  lemma BypassDelivers(s: Core, s': Core, h: History, w: Work, r: Register, p: int, b: BypassState)
    requires InFlightOk(s, h, w) && PortsWritten(s, s')
    requires 0 <= p < |h| && h[p].Some?
    requires EntryMatches(b.scoreboard[r], h[p].value, r, s.cycle - p, s.longLatency) && SourceReady(b, r)
    ensures SourceCommand(s, b, r).Some? && Forwarded(h[p].value, r, s.cycle - p, s.longLatency)
    ensures Operand(s', SourceRead(s, b, r), SourceCommand(s, b, r)) == Finished(w, h, p).res.v0
  {
    hide InFlightOk, PortsWritten, SourceReady, Operand, SourceRead, SourceCommand;
    hide Finished, BypassPort, DirectionAt, Forwarded, OutputOf;
    var i, x := h[p].value, Finished(w, h, p);
    ReadyMeansForwarded(b, i, r, s.cycle - p, s.longLatency);
    PortCarriesResult(s, s', h, w, p, r);
    BypassedWhenTracked(s, s', b, i, r, s.cycle - p, x);
  }

  /** The youngest producer of `r` is on its way. */
  ghost predicate InFlight(s: Core, h: History, r: Register) {
    var p := LastWriter(h, s.cycle, r);
    p >= 0 && WritebackCycle(h, p, s.longLatency) >= s.cycle
  }

  /** What a tracked entry makes of a source that is ready. */
  lemma TrackedSource(s: Core, s': Core, h: History, w: Work, r: Register)
    requires InFlightOk(s, h, w) && PortsWritten(s, s')
    requires EntryTracks(BypassInDecode(s).scoreboard[r], h, s.cycle, r, s.cycle, s.longLatency)
    requires SourceReady(BypassInDecode(s), r)
    ensures var b := BypassInDecode(s);
            var seen := Operand(s', SourceRead(s, b, r), SourceCommand(s, b, r));
            if InFlight(s, h, r) then
              && SourceCommand(s, b, r).Some?
              && Forwarded(h[LastWriter(h, s.cycle, r)].value, r, s.cycle - LastWriter(h, s.cycle, r), s.longLatency)
              && seen == Finished(w, h, LastWriter(h, s.cycle, r)).res.v0
            else SourceCommand(s, b, r).None? && seen == s.rf[r]
  {
    hide InFlightOk, PortsWritten, BypassInDecode, SourceReady, Operand, SourceRead, SourceCommand, Forwarded, Finished;
    var b := BypassInDecode(s);
    if InFlight(s, h, r) {
      BypassDelivers(s, s', h, w, r, LastWriter(h, s.cycle, r), b);
    } else {
      ReadWhenUntraced(s, s', b, r);
    }
  }

  // Values

  /** The final result of a producer that may be forwarded is the sequential one. */
  lemma ForwardedIsRight(s: Core, h: History, a: Arch, w: Work, r: Register, p: int)
    requires |h| == s.cycle && Alive(h, p) && FlushOk(s, h) && !s.flushAll && ExecutedOk(s, h, w) && Works(s, w)
    requires ValuesOk(s, h, a, w) && !Branch(s).miss
    requires Forwarded(h[p].value, r, s.cycle - p, s.longLatency)
    ensures Finished(w, h, p) == SpecFinal(a, h, p)
  {
    hide At, Branch, FlushOk, Works, ExecutedOk, Executed, Outcome, Accessed;
    AccessOfSpec(a, h, p);
    if p == s.cycle - 2 && h[p].value.IsLoad() {
      AccessedIsRight(s, h, a, w);
    }
  }

  lemma AccessOfSpec(a: Arch, h: History, t: int)
    requires Alive(h, t)
    ensures var x := SpecFinal(a, h, t);
            && x == Accessed(a.isa, SpecOp(a, h, t), At(a, h, t).mem)
            && x.instr == h[t].value && x.born == t
            && (!h[t].value.IsLoad() ==> x == SpecOp(a, h, t))
  {
    hide At, Executed;
  }

  lemma AccessedIsRight(s: Core, h: History, a: Arch, w: Work)
    requires !s.flushAll && ExecutedOk(s, h, w) && Works(s, w) && s.isa == a.isa
    requires MemAt(h, s.cycle - 2) && Right(w, h, a, s.cycle - 2) && s.mem == At(a, h, s.cycle - 2).mem
    ensures Finished(w, h, s.cycle - 2) == SpecFinal(a, h, s.cycle - 2)
  {
    hide At, SpecOp, SpecFinal, Accessed;
    AccessOfSpec(a, h, s.cycle - 2);
    if h[s.cycle - 2].value.IsLoad() {
      assert s.toMem == Some(SpecOp(a, h, s.cycle - 2));
    } else {
      FinalIsExecuted(w, h, s.cycle - 2);
    }
  }

  lemma ProducerValue(h: History, a: Arch, r: Register, p: int, n: int, age: int, l: LongLatency)
    requires WellFormedHistory(h) && p == LastWriter(h, n, r) && p >= 0
    requires Forwarded(h[p].value, r, age, l)
    ensures At(a, h, n).rf[r] == SpecFinal(a, h, p).res.v0 <==> ReplacesWord(a, h, p, r)
  {
    hide At, SpecFinal, ReplacesWord, WellFormedHistory;
    ProducedValue(a, h, p, n, r);
  }

  lemma ReadFromRegisterFile(s: Core, h: History, a: Arch, w: Work, r: Register)
    requires CommitOk(s, h, w) && WellFormedHistory(h) && s.rf == At(a, h, Committed(s)).rf
    requires !InFlight(s, h, r)
    ensures s.rf[r] == At(a, h, s.cycle).rf[r]
  {
    hide At;
    NoWriterNoChange(a, h, Committed(s), s.cycle, r);
  }

  /** Read from the register file or bypassed, the operand is that of the sequential run, exactly
      if what is bypassed replaces the word. */
  lemma OperandDelivered(s: Core, s': Core, h: History, a: Arch, w: Work, r: Register)
    requires InFlightOk(s, h, w) && CommitOk(s, h, w) && PortsWritten(s, s')
    requires ValuesOk(s, h, a, w) && !Branch(s).miss
    requires EntryTracks(BypassInDecode(s).scoreboard[r], h, s.cycle, r, s.cycle, s.longLatency)
    requires SourceReady(BypassInDecode(s), r)
    ensures var b := BypassInDecode(s);
            Operand(s', SourceRead(s, b, r), SourceCommand(s, b, r)) == At(a, h, s.cycle).rf[r]
            <==> SourceWhole(s, h, a, r)
  {
    hide *;
    TrackedSource(s, s', h, w, r);
    InFlightParts(s, h, w);
    ValuesParts(s, h, a, w);
    var p := LastWriter(h, s.cycle, r);
    if InFlight(s, h, r) {
      FlyingProducer(s, h, r);
      ForwardedIsRight(s, h, a, w, r, p);
      ProducerValue(h, a, r, p, s.cycle, s.cycle - p, s.longLatency);
      WholeIfCommanded(s, h, a, r);
    } else {
      ReadFromRegisterFile(s, h, a, w, r);
      WholeIfRead(s, h, a, r);
    }
  }

  lemma FlyingProducer(s: Core, h: History, r: Register)
    requires InFlight(s, h, r)
    ensures LastWriter(h, s.cycle, r) >= 0 && Alive(h, LastWriter(h, s.cycle, r))
  {
  }

  lemma WholeIfCommanded(s: Core, h: History, a: Arch, r: Register)
    requires SourceCommand(s, BypassInDecode(s), r).Some? && LastWriter(h, s.cycle, r) >= 0
    ensures SourceWhole(s, h, a, r) <==> ReplacesWord(a, h, LastWriter(h, s.cycle, r), r)
  {
    hide SourceCommand, BypassInDecode, ReplacesWord;
  }

  lemma WholeIfRead(s: Core, h: History, a: Arch, r: Register)
    requires SourceCommand(s, BypassInDecode(s), r).None?
    ensures SourceWhole(s, h, a, r)
  {
    hide SourceCommand, BypassInDecode, ReplacesWord;
  }

  lemma ValuesParts(s: Core, h: History, a: Arch, w: Work)
    requires ValuesOk(s, h, a, w)
    ensures s.isa == a.isa && WellFormedHistory(h) && s.rf == At(a, h, Committed(s)).rf
    ensures s.mem == At(a, h, s.cycle - 2).mem
  {
  }

  lemma IssuedOp(s: Core, s': Core, fetched: Option<Instr>, before: Arch)
    requires DecodeSent(s, s', fetched) && IssuedInstr(s, fetched).Some? && s'.isa == before.isa
    requires var b, i := BypassInDecode(s), IssuedInstr(s, fetched).value;
             && Operand(s', SourceRead(s, b, i.src0), SourceCommand(s, b, i.src0)) == before.rf[i.src0]
             && Operand(s', SourceRead(s, b, i.src1), SourceCommand(s, b, i.src1)) == before.rf[i.src1]
    ensures var i := IssuedInstr(s, fetched).value;
            && s'.toExecute.Some?
            && ExecutedOp(s', s'.toExecute.value)
               == Op(i, s.cycle, before.rf[i.src0], before.rf[i.src1], Executed(before, i))
  {
  }
}
