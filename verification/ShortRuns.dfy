/** Runs of short instructions, cycle by cycle: while nothing else is on its way a cycle issues one
    instruction, executes the one before it and writes back the one before that. */
module ShortRuns {
  import opened Operations
  import opened Options
  import opened RegisterFile
  import opened Scoreboard
  import opened Pipeline
  import opened Theorems

  /** Nothing but short instructions is on its way. */
  ghost predicate Quiet(s: Core) {
    && s.Shaped()
    && !s.flushAll && !s.flushFetch && s.stalled.None?
    && s.toMem.None? && s.toBranch.None? && s.fromMem.None? && s.fromBranch.None?
    && (s.toExecute.Some? ==> s.toExecute.value.instr.op == OutArithm)
    && (forall k :: 0 <= k < |s.longUnit| ==> s.longUnit[k].None?)
  }

  ghost predicate Issues(s: Core, fetched: Option<Instr>) {
    fetched.Some? ==> fetched.value.op == OutArithm && !IsStall(BypassInDecode(s), fetched.value, s.longLatency)
  }

  lemma QuietDecode(s: Core, fetched: Option<Instr>)
    requires Quiet(s) && Issues(s, fetched)
    ensures var d := Decode(s, fetched);
            && d.bypass == BypassInDecode(s) && d.stalled.None? && !d.flushFetch
            && (fetched.None? ==> d.issue.None?)
            && (fetched.Some? ==>
                var i, b := fetched.value, BypassInDecode(s);
                && d.issue == Some(Op(i, s.cycle, SourceRead(s, b, i.src0), SourceRead(s, b, i.src1), NO_RESULT))
                && d.command0 == SourceCommand(s, b, i.src0) && d.command1 == SourceCommand(s, b, i.src1))
  {
  }

  lemma QuietExecute(s: Core)
    requires Quiet(s)
    ensures var e := Execute(s);
            && e.toMem.None? && e.toBranch.None?
            && (forall k :: 0 <= k < |e.longUnit| ==> e.longUnit[k].None?)
            && (s.toExecute.None? ==> e.toWriteback == [])
            && (s.toExecute.Some? ==>
                var x := ExecutedOp(s, s.toExecute.value);
                e.toWriteback == [x] && e.bypassExecute == [OutputOf(x)])
  {
    hide ExecutedOp, OutputOf, Operand;
    assert LongDone(s) == [];
    assert s.toExecute.Some? ==> ExecutedOp(s, s.toExecute.value).instr == s.toExecute.value.instr by {
      KeepsInstr(s);
    }
  }

  lemma KeepsInstr(s: Core)
    ensures s.toExecute.Some? ==> ExecutedOp(s, s.toExecute.value).instr == s.toExecute.value.instr
  {
  }

  /** One cycle of such a run. */
  lemma QuietCycle(s: Core, fetched: Option<Instr>, s': Core)
    requires Quiet(s) && Issues(s, fetched) && s' == Next(s, fetched)
    ensures Quiet(s') && s'.isa == s.isa && s'.longLatency == s.longLatency && s'.bypass == BypassInDecode(s)
    ensures s'.notify == fetched && s'.cycle == s.cycle + 1
    ensures fetched.Some? ==>
              var i, b := fetched.value, BypassInDecode(s);
              && s'.toExecute == Some(Op(i, s.cycle, SourceRead(s, b, i.src0), SourceRead(s, b, i.src1), NO_RESULT))
              && s'.command0 == SourceCommand(s, b, i.src0) && s'.command1 == SourceCommand(s, b, i.src1)
    ensures fetched.None? ==> s'.toExecute.None?
    ensures s.toExecute.None? ==> s'.fromExecute == []
    ensures s.toExecute.Some? ==>
              var x := ExecutedOp(s, s.toExecute.value);
              s'.fromExecute == [x] && s'.bypassExecute == [OutputOf(x)]
    ensures s.fromExecute == [] ==> s'.rf == s.rf && s'.retired == s.retired
    ensures |s.fromExecute| == 1 ==>
              var x := s.fromExecute[0];
              s'.rf == WriteDst(s.rf, x.instr, x.res) && s'.retired == s.retired + [Retirement(x, s.cycle)]
  {
    hide Decode, Execute, BypassInDecode, SourceRead, SourceCommand, ExecutedOp, OutputOf, WriteDst;
    QuietDecode(s, fetched);
    QuietExecute(s);
    OneRetired(s);
  }

  lemma OneRetired(s: Core)
    requires s.fromMem.None? && s.fromBranch.None?
    ensures s.fromExecute == [] ==>
              ReadInstructions(s) == [] && WrittenBack(s.rf, []) == s.rf && Retirements([], s.cycle) == []
    ensures |s.fromExecute| == 1 ==>
              var x := s.fromExecute[0];
              && ReadInstructions(s) == [x] && Retirements([x], s.cycle) == [Retirement(x, s.cycle)]
              && WrittenBack(s.rf, [x]) == WriteDst(s.rf, x.instr, x.res)
  {
    hide WriteDst;
    if |s.fromExecute| == 1 {
      assert [s.fromExecute[0]][1..] == [];
    }
  }

  lemma UpdateOf(s: Core, r: Register)
    ensures !s.flushAll && s.notify.None? ==>
              BypassInDecode(s).scoreboard[r] == UpdatedEntry(s.bypass.scoreboard[r], s.longLatency)
    ensures !s.flushAll && s.notify.Some? && !s.notify.value.Writes(r) ==>
              BypassInDecode(s).scoreboard[r] == UpdatedEntry(s.bypass.scoreboard[r], s.longLatency)
    ensures !s.flushAll && s.notify.Some? && r != ZERO && r == s.notify.value.dst0 && r != s.notify.value.dst1 ==>
              BypassInDecode(s).scoreboard[r]
              == TracedFirst(UpdatedEntry(s.bypass.scoreboard[r], s.longLatency), s.notify.value, s.longLatency)
    ensures !s.flushAll && s.notify.Some? && r != ZERO && r == s.notify.value.dst1 && r != s.notify.value.dst0 ==>
              BypassInDecode(s).scoreboard[r]
              == TracedSecond(UpdatedEntry(s.bypass.scoreboard[r], s.longLatency), s.notify.value)
    ensures !s.flushAll && s.notify.Some? ==>
              BypassInDecode(s).operationLatency == Latency(s.notify.value, s.longLatency)
  {
  }

  lemma RetiredAppend(r: seq<Retirement>, x: Retirement)
    ensures RetiredInstrs(r + [x]) == RetiredInstrs(r) + [x.op.instr]
  {
    assert (r + [x])[..|r|] == r;
  }
}
