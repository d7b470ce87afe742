/** Where forwarding goes wrong: two short programs of RISC-V instructions on which the pipeline
    leaves other registers than the sequential simulator. Each violates one of the two assumptions
    about a run, and so neither can be dropped. */
module Hazard {
  import opened Operations
  import opened Options
  import opened Powers
  import opened RegisterFile
  import opened FuncSim
  import opened Scoreboard
  import opened Pipeline
  import opened Timeline
  import opened Invariant
  import opened ShortRuns
  import opened Theorems

  /** A control and status register: one of those behind the 32 general ones. */
  const CSR: Register := 40

  const BP := BPInterface(false, 0, true)

  // addi x5, x0, 1; csrrw x5, csr, x5; add x7, x5, x0

  const ADDI := Instr(OutArithm, 0, 0, 5, 0, 0, BP, 1, 0)
  const CSRRW := Instr(OutArithm, 5, CSR, CSR, 5, 0, BP, 2, 4)
  const ADD := Instr(OutArithm, 5, 0, 7, 0, 0, BP, 3, 8)

  // csrrs x5, csr, x0; csrrs x6, csr, x0

  const CSRRS5 := Instr(OutArithm, 0, CSR, CSR, 5, 0, BP, 4, 0)
  const CSRRS6 := Instr(OutArithm, 0, CSR, CSR, 6, 0, BP, 4, 4)

  /** addi of 1, csrrw, add, and csrrs, which sets the bits of its first operand in the register by
      writing all ones under that operand as the mask. */
  function ResultOf(code: nat, x: Word, y: Word): Result {
    if code == 1 then Result((x + 1) % TWO_32, 0, ALL_ONES, false, 0, 0)
    else if code == 2 then Result(x, y, ALL_ONES, false, 0, 0)
    else if code == 3 then Result((x + y) % TWO_32, 0, ALL_ONES, false, 0, 0)
    else Result(ALL_ONES, y, x, false, 0, 0)
  }

  const ISA := Isa(
    (code: nat, x: Word, y: Word) => ResultOf(code, x, y),
    (code: nat, mem: Memory, addr: Addr) => 0,
    (code: nat, mem: Memory, addr: Addr, val: Word, mask: Word) => mem)

  const START := Arch(ISA, RESET_REGISTERS, map[])

  const SWAP := [Some(ADDI), Some(CSRRW), Some(ADD), None, None]
  const SETS := [Some(CSRRS5), Some(CSRRS6), None, None]

  ghost predicate AllUntraced(b: BypassState) {
    forall r: Register :: b.scoreboard[r] == UNTRACED
  }

  ghost predicate AllZero(rf: Registers) {
    forall r: Register :: rf[r] == 0
  }

  /** What the first cycle leaves, on either program. */
  ghost predicate AfterFirst(s: Core, i: Instr) {
    && Quiet(s) && s.isa == ISA && s.notify == Some(i)
    && AllUntraced(s.bypass)
    && s.cycle == 1 && AllZero(s.rf) && s.retired == [] && s.fromExecute == []
    && s.toExecute == Some(Op(i, 0, 0, 0, NO_RESULT)) && s.command0.None? && s.command1.None?
  }

  lemma NothingTraced(s: Core)
    requires AllUntraced(s.bypass) && !s.flushAll && s.notify.None?
    ensures AllUntraced(BypassInDecode(s))
  {
    forall r: Register
      ensures BypassInDecode(s).scoreboard[r] == UNTRACED
    {
      UpdateOf(s, r);
    }
  }

  lemma ResetIsQuiet(l: LongLatency)
    ensures var s := Reset(l, START);
            && Quiet(s) && s.isa == ISA && AllUntraced(s.bypass) && s.bypass.operationLatency == 0
            && s.cycle == 0 && AllZero(s.rf) && s.retired == [] && s.fromExecute == []
            && s.notify.None? && s.toExecute.None?
  {
  }

  lemma FirstCycle(s: Core, i: Instr, s': Core)
    requires s == Reset(s.longLatency, START) && s' == Next(s, Some(i)) && i.op == OutArithm
    ensures AfterFirst(s', i) && s'.longLatency == s.longLatency && SecondDestinationSafe(s)
  {
    hide Next, Decode, Quiet, AllUntraced, Reset, BypassInDecode;
    ResetIsQuiet(s.longLatency);
    FirstIssues(s, i);
    QuietCycle(s, Some(i), s');
  }

  lemma FirstIssues(s: Core, i: Instr)
    requires AllUntraced(s.bypass) && s.bypass.operationLatency == 0 && !s.flushAll && s.notify.None?
    requires i.op == OutArithm && AllZero(s.rf)
    ensures var b := BypassInDecode(s);
            && AllUntraced(b) && Issues(s, Some(i))
            && SourceRead(s, b, i.src0) == 0 && SourceRead(s, b, i.src1) == 0
            && SourceCommand(s, b, i.src0).None? && SourceCommand(s, b, i.src1).None?
  {
    NothingTraced(s);
    assert BypassInDecode(s).operationLatency == 0;
  }

  // Second destinations: the entry of x5 through the first program

  ghost predicate AfterSwap(s: Core) {
    && Quiet(s) && s.isa == ISA && s.notify == Some(CSRRW)
    && s.bypass.scoreboard[0] == UNTRACED && s.bypass.scoreboard[CSR] == UNTRACED
    && s.bypass.scoreboard[5] == RegisterInfo(FIRST_EXECUTION, FIRST_EXECUTION, WRITEBACK, true, true)
    && s.cycle == 2 && AllZero(s.rf) && s.retired == []
    && s.fromExecute == [Op(ADDI, 0, 0, 0, ResultOf(1, 0, 0))] && s.bypassExecute == [Output(1, 0)]
    && s.toExecute == Some(Op(CSRRW, 1, NO_VALUE, 0, NO_RESULT))
    && s.command0 == Some(BypassCommand(FIRST_EXECUTION, s.longLatency - 1)) && s.command1.None?
  }

  /** What decode sees after addi: csrrw takes its first operand from the execute port. */
  lemma SwapIssues(s: Core)
    requires AfterFirst(s, ADDI)
    ensures var b := BypassInDecode(s);
            && b.scoreboard[0] == UNTRACED && b.scoreboard[CSR] == UNTRACED
            && b.scoreboard[5] == RegisterInfo(FIRST_EXECUTION, FIRST_EXECUTION, WRITEBACK, true, true)
            && Issues(s, Some(CSRRW))
            && SourceRead(s, b, 5) == NO_VALUE && SourceRead(s, b, CSR) == 0
            && SourceCommand(s, b, 5) == Some(BypassCommand(FIRST_EXECUTION, s.longLatency - 1))
            && SourceCommand(s, b, CSR).None?
  {
    UpdateOf(s, 0);
    UpdateOf(s, 5);
    UpdateOf(s, CSR);
  }

  lemma FirstExecutes(s: Core, i: Instr)
    requires AfterFirst(s, i)
    ensures ExecutedOp(s, s.toExecute.value) == Op(i, 0, 0, 0, ResultOf(i.code, 0, 0))
  {
  }

  lemma SwapCycle(s: Core, s': Core)
    requires AfterFirst(s, ADDI) && s' == Next(s, Some(CSRRW))
    ensures AfterSwap(s') && s'.longLatency == s.longLatency
  {
    hide Next, Decode, Quiet, BypassInDecode, SourceRead, SourceCommand, ExecutedOp, AllUntraced, Issues, AllZero;
    SwapIssues(s);
    FirstExecutes(s, ADDI);
    QuietCycle(s, Some(CSRRW), s');
  }

  /** Entry 5 now names the second producer but has kept the bypassible bit of the first, so add is
      not stalled and is sent to the execute port for its operand. */
  ghost predicate AfterAdd(s: Core) {
    && Quiet(s) && s.isa == ISA && s.notify == Some(ADD)
    && s.cycle == 3 && RetiredInstrs(s.retired) == [ADDI]
    && s.fromExecute == [Op(CSRRW, 1, 1, 0, ResultOf(2, 1, 0))] && s.bypassExecute == [Output(1, 0)]
    && s.toExecute == Some(Op(ADD, 2, NO_VALUE, 0, NO_RESULT))
    && s.command0 == Some(BypassCommand(FIRST_EXECUTION, s.longLatency - 1)) && s.command1.None?
  }

  lemma EntryKeepsBit(s: Core)
    requires AfterSwap(s)
    ensures var b := BypassInDecode(s);
            && b.scoreboard[0] == UNTRACED && b.operationLatency == 1
            && b.scoreboard[5].current == FIRST_EXECUTION && b.scoreboard[5].isBypassible
    ensures !SecondDestinationSafe(s)
  {
    UpdateOf(s, 0);
    UpdateOf(s, 5);
  }

  lemma AddIssues(s: Core)
    requires AfterSwap(s)
    ensures var b := BypassInDecode(s);
            && Issues(s, Some(ADD))
            && SourceRead(s, b, 5) == NO_VALUE && SourceRead(s, b, 0) == 0
            && SourceCommand(s, b, 5) == Some(BypassCommand(FIRST_EXECUTION, s.longLatency - 1))
            && SourceCommand(s, b, 0).None?
    ensures !SecondDestinationSafe(s)
  {
    hide Next, BypassInDecode, Quiet, SecondDestinationSafe;
    EntryKeepsBit(s);
  }

  lemma SwapExecutes(s: Core)
    requires AfterSwap(s)
    ensures ExecutedOp(s, s.toExecute.value) == Op(CSRRW, 1, 1, 0, ResultOf(2, 1, 0))
  {
  }

  lemma AddCycle(s: Core, s': Core)
    requires AfterSwap(s) && s' == Next(s, Some(ADD))
    ensures AfterAdd(s') && s'.longLatency == s.longLatency && !SecondDestinationSafe(s)
  {
    hide Next, Decode, WriteDst, BypassInDecode, Issues, SourceRead, SourceCommand, SecondDestinationSafe, Quiet;
    hide ExecutedOp, RetiredInstrs, AllZero;
    AddIssues(s);
    SwapExecutes(s);
    QuietCycle(s, Some(ADD), s');
    OneRetirement(Retirement(s.fromExecute[0], s.cycle));
  }

  lemma OneRetirement(x: Retirement)
    ensures RetiredInstrs([] + [x]) == [x.op.instr]
  {
    RetiredAppend([], x);
  }

  ghost predicate AfterSwapDrain(s: Core) {
    && Quiet(s) && s.fromExecute == [Op(ADD, 2, 1, 0, ResultOf(3, 1, 0))]
    && RetiredInstrs(s.retired) == [ADDI, CSRRW]
  }

  lemma AddExecutes(s: Core)
    requires AfterAdd(s)
    ensures ExecutedOp(s, s.toExecute.value) == Op(ADD, 2, 1, 0, ResultOf(3, 1, 0))
  {
  }

  lemma SwapDrainCycle(s: Core, s': Core)
    requires AfterAdd(s) && s' == Next(s, None)
    ensures AfterSwapDrain(s') && s'.longLatency == s.longLatency
  {
    hide Next, Decode, WriteDst, RetiredInstrs, Quiet, ExecutedOp, OutputOf;
    AddExecutes(s);
    QuietCycle(s, None, s');
    RetiredAppend(s.retired, Retirement(s.fromExecute[0], s.cycle));
  }

  lemma LastSwapCycle(s: Core, s': Core)
    requires AfterSwapDrain(s) && s' == Next(s, None)
    ensures s'.rf[7] == 1 && RetiredInstrs(s'.retired) == [ADDI, CSRRW, ADD]
  {
    hide Next, Decode, WriteDst, RetiredInstrs, Quiet;
    QuietCycle(s, None, s');
    FullWrite(s.rf, ADD, ResultOf(3, 1, 0));
    RetiredAppend(s.retired, Retirement(s.fromExecute[0], s.cycle));
  }

  lemma FullWrite(rf: Registers, i: Instr, res: Result)
    requires i.IsBypassible() && i.dst0 != ZERO && i.dst0 != i.dst1 && res.mask == ALL_ONES
    ensures WriteDst(rf, i, res)[i.dst0] == res.v0
  {
    hide WriteDst, ApplyMask;
    WriteDstFirst(rf, i, res);
    FullMask(rf[i.dst0], res.v0);
  }

  /** One sequential step of a short instruction of this architecture. */
  lemma ShortStep(a: Arch, i: Instr)
    requires a.isa == ISA && i.op == OutArithm
    ensures var res := ResultOf(i.code, a.rf[i.src0], a.rf[i.src1]);
            Step(a, i) == Arch(ISA, WriteDst(a.rf, i, res), a.mem)
    ensures forall r: Register :: !i.Writes(r) ==> Step(a, i).rf[r] == a.rf[r]
    ensures i.dst1 != ZERO ==> Step(a, i).rf[i.dst1] == ResultOf(i.code, a.rf[i.src0], a.rf[i.src1]).v1
  {
    hide WriteDst, ResultOf;
    var res := ResultOf(i.code, a.rf[i.src0], a.rf[i.src1]);
    forall r: Register | !i.Writes(r)
      ensures WriteDst(a.rf, i, res)[r] == a.rf[r]
    {
      WriteDstFrame(a.rf, i, res, r);
    }
    if i.dst1 != ZERO {
      WriteDstSecond(a.rf, i, res);
    }
  }

  lemma RunOne(a: Arch, i: Instr)
    ensures Run(a, [i]) == Step(a, i)
  {
    hide Step;
    RunAppend(a, [], i);
    assert [] + [i] == [i];
  }

  lemma SequentialSwap()
    ensures Run(START, [ADDI, CSRRW, ADD]).rf[7] == 0
  {
    hide Run, WriteDst, Step;
    RunOne(START, ADDI);
    RunAppend(START, [ADDI], CSRRW);
    RunAppend(START, [ADDI, CSRRW], ADD);
    assert [ADDI] + [CSRRW] == [ADDI, CSRRW] && [ADDI, CSRRW] + [ADD] == [ADDI, CSRRW, ADD];
    var a1 := Step(START, ADDI);
    var a2 := Step(a1, CSRRW);
    ShortStep(START, ADDI);
    ShortStep(a1, CSRRW);
    ShortStep(a2, ADD);
    assert a2.rf[5] == 0 && a2.rf[0] == 0;
    FullWrite(a2.rf, ADD, ResultOf(3, 0, 0));
  }

  /** By itself csrrs leaves the bitwise or of both operands in the control register, and the old value
      of that register in its other destination. */
  lemma CsrrsSetsBits(a: Arch, i: Instr, k: nat)
    requires a.isa == ISA && i.op == OutArithm && i.code == 4 && i.dst0 == CSR && i.src1 == CSR && i.dst1 != CSR
    requires k < 32
    ensures Bit(Step(a, i).rf[CSR], k) == (Bit(a.rf[CSR], k) || Bit(a.rf[i.src0], k))
    ensures i.dst1 != 0 ==> Step(a, i).rf[i.dst1] == a.rf[CSR]
  {
    hide Step, Bit;
    StepRegisters(a, i, CSR, k);
    StepRegisters(a, i, i.dst1, k);
    AllOnesBits(k);
  }

  /** The assumption on second destinations cannot be dropped. csrrw swaps x5, which addi has just
      set to 1, with a control register that is 0; add then reads x5. The run writes all three
      back and leaves 1 in x7, where the sequential simulator leaves 0. */
  lemma StaleForwarding(l: LongLatency, states: seq<Core>)
    requires IsRun(l, START, SWAP, states)
    ensures WellFormedRun(l, START, SWAP, states) && !SafeRun(l, START, SWAP, states)
    ensures !SecondDestinationSafe(states[2])
    ensures var s := states[5];
            RetiredInstrs(s.retired) == [ADDI, CSRRW, ADD]
            && s.rf[7] == 1 && Run(START, RetiredInstrs(s.retired)).rf[7] == 0
  {
    hide Next, Run, SecondDestinationSafe, ForwardingSafe, RetiredInstrs;
    assert IsCycle(SWAP, states, 0) && IsCycle(SWAP, states, 1) && IsCycle(SWAP, states, 2);
    assert IsCycle(SWAP, states, 3) && IsCycle(SWAP, states, 4);
    FirstCycle(states[0], ADDI, states[1]);
    SwapCycle(states[1], states[2]);
    AddCycle(states[2], states[3]);
    SwapDrainCycle(states[3], states[4]);
    LastSwapCycle(states[4], states[5]);
    SequentialSwap();
    if SafeRun(l, START, SWAP, states) {
      PipelineRefinesFuncSim(l, START, SWAP, states, 5);
    }
  }

  // Masks: the second program

  /** The second csrrs is sent to the execute port for the control register. */
  ghost predicate AfterSets(s: Core) {
    && Quiet(s) && s.isa == ISA && s.notify == Some(CSRRS6)
    && s.bypass.scoreboard[6] == UNTRACED
    && s.cycle == 2 && s.retired == []
    && s.fromExecute == [Op(CSRRS5, 0, 0, 0, ResultOf(4, 0, 0))] && s.bypassExecute == [Output(ALL_ONES, 0)]
    && s.toExecute == Some(Op(CSRRS6, 1, 0, NO_VALUE, NO_RESULT))
    && s.command0.None? && s.command1 == Some(BypassCommand(FIRST_EXECUTION, s.longLatency - 1))
  }

  lemma SetIssues(s: Core)
    requires AfterFirst(s, CSRRS5)
    ensures var b := BypassInDecode(s);
            && b.scoreboard[6] == UNTRACED
            && Issues(s, Some(CSRRS6))
            && SourceRead(s, b, 0) == 0 && SourceRead(s, b, CSR) == NO_VALUE
            && SourceCommand(s, b, 0).None?
            && SourceCommand(s, b, CSR) == Some(BypassCommand(FIRST_EXECUTION, s.longLatency - 1))
    ensures SecondDestinationSafe(s)
  {
    UpdateOf(s, 0);
    UpdateOf(s, 6);
    UpdateOf(s, CSR);
  }

  lemma SetCycle(s: Core, s': Core)
    requires AfterFirst(s, CSRRS5) && s' == Next(s, Some(CSRRS6))
    ensures AfterSets(s') && s'.longLatency == s.longLatency && SecondDestinationSafe(s)
  {
    hide Next, Decode, Quiet, BypassInDecode, SourceRead, SourceCommand, ExecutedOp, AllUntraced, Issues, AllZero;
    hide SecondDestinationSafe;
    SetIssues(s);
    FirstExecutes(s, CSRRS5);
    QuietCycle(s, Some(CSRRS6), s');
  }

  ghost predicate AfterSetsDrain(s: Core) {
    && Quiet(s) && s.notify.None?
    && s.fromExecute == [Op(CSRRS6, 1, 0, ALL_ONES, ResultOf(4, 0, ALL_ONES))]
    && RetiredInstrs(s.retired) == [CSRRS5]
  }

  lemma SetExecutes(s: Core)
    requires AfterSets(s)
    ensures ExecutedOp(s, s.toExecute.value) == Op(CSRRS6, 1, 0, ALL_ONES, ResultOf(4, 0, ALL_ONES))
    ensures SecondDestinationSafe(s)
  {
    UpdateOf(s, 6);
  }

  lemma SetsDrainCycle(s: Core, s': Core)
    requires AfterSets(s) && s' == Next(s, None)
    ensures AfterSetsDrain(s') && s'.longLatency == s.longLatency && SecondDestinationSafe(s)
  {
    hide Next, Decode, WriteDst, RetiredInstrs, Quiet, ExecutedOp, OutputOf, SecondDestinationSafe;
    SetExecutes(s);
    QuietCycle(s, None, s');
    OneRetirement(Retirement(s.fromExecute[0], s.cycle));
  }

  lemma LastSetsCycle(s: Core, s': Core)
    requires AfterSetsDrain(s) && s' == Next(s, None)
    ensures s'.rf[6] == ALL_ONES && RetiredInstrs(s'.retired) == [CSRRS5, CSRRS6] && SecondDestinationSafe(s)
  {
    hide Next, Decode, WriteDst, RetiredInstrs, Quiet;
    QuietCycle(s, None, s');
    WriteDstSecond(s.rf, CSRRS6, ResultOf(4, 0, ALL_ONES));
    RetiredAppend(s.retired, Retirement(s.fromExecute[0], s.cycle));
  }

  lemma SequentialSets()
    ensures Run(START, [CSRRS5, CSRRS6]).rf[6] == 0
  {
    hide Run, WriteDst, Step;
    RunOne(START, CSRRS5);
    RunAppend(START, [CSRRS5], CSRRS6);
    assert [CSRRS5] + [CSRRS6] == [CSRRS5, CSRRS6];
    var a1 := Step(START, CSRRS5);
    ShortStep(START, CSRRS5);
    ShortStep(a1, CSRRS6);
    assert a1.rf[CSR] == 0 by {
      WriteDstFirst(START.rf, CSRRS5, ResultOf(4, 0, 0));
      MergeNothing(0, ALL_ONES);
    }
  }

  /** The assumption on masks cannot be dropped either. Neither csrrs sets a bit, so a control
      register that is 0 stays so; but the first leaves all ones on the execute port, and the second
      takes that for the register's value. The run leaves all ones in x6, where the sequential
      simulator leaves 0; no second destination is to blame. */
  lemma MaskedForwarding(l: LongLatency, states: seq<Core>)
    requires IsRun(l, START, SETS, states)
    ensures WellFormedRun(l, START, SETS, states) && !SafeRun(l, START, SETS, states)
    ensures forall k :: 0 <= k < 4 ==> SecondDestinationSafe(states[k])
    ensures exists k :: 0 <= k < 4 && !ForwardingSafe(states[k], Surviving(states[k]), SETS[k], START)
    ensures var s := states[4];
            RetiredInstrs(s.retired) == [CSRRS5, CSRRS6]
            && s.rf[6] == ALL_ONES && Run(START, RetiredInstrs(s.retired)).rf[6] == 0
  {
    hide Next, Run, SecondDestinationSafe, ForwardingSafe, RetiredInstrs, Surviving;
    assert IsCycle(SETS, states, 0) && IsCycle(SETS, states, 1) && IsCycle(SETS, states, 2) && IsCycle(SETS, states, 3);
    FirstCycle(states[0], CSRRS5, states[1]);
    SetCycle(states[1], states[2]);
    SetsDrainCycle(states[2], states[3]);
    LastSetsCycle(states[3], states[4]);
    SequentialSets();
    if SafeRun(l, START, SETS, states) {
      PipelineRefinesFuncSim(l, START, SETS, states, 4);
    }
  }
}
