/** The scoreboard of the bypassing unit as functions on values. */
module Scoreboard {
  import opened Operations

  /** Port 0 is EXECUTE, 1 the last stage of the long unit, 2 MEM, 3 WRITEBACK, 4 BRANCH. */
  datatype RegisterStage = RegisterStage(value: nat, direction: nat)

  const IN_RF_STAGE: nat := 255
  const MEM_OR_BRANCH_STAGE: nat := 253
  const WB_STAGE: nat := 254

  const FIRST_EXECUTION := RegisterStage(0, 0)
  const MEM := RegisterStage(MEM_OR_BRANCH_STAGE, 2)
  const WRITEBACK := RegisterStage(WB_STAGE, 3)
  const BRANCH := RegisterStage(MEM_OR_BRANCH_STAGE, 4)

  datatype RegisterInfo = RegisterInfo(
    current: RegisterStage,
    ready: RegisterStage,
    next: RegisterStage,
    isBypassible: bool,
    isTraced: bool)
  {
    predicate InRF() { current.value == IN_RF_STAGE }
  }

  const UNTRACED :=
    var inRF := RegisterStage(IN_RF_STAGE, 0);
    RegisterInfo(inRF, inRF, inRF, false, false)

  type LongLatency = l: nat | 2 <= l < 64 witness 2

  type Entries = s: seq<RegisterInfo> | |s| == MAX_REG witness seq(MAX_REG, _ => UNTRACED)

  /** The scoreboard and the latency left to the last issued instruction. */
  datatype BypassState = BypassState(scoreboard: Entries, operationLatency: nat)

  const RESET_BYPASS := BypassState(seq(MAX_REG, _ => UNTRACED), 0)

  /** What decode sends to execute for a source that is to be bypassed. */
  datatype BypassCommand = BypassCommand(stage: RegisterStage, lastExecutionStage: nat)
  {
    function Direction(): nat {
      if stage.value == lastExecutionStage then 1 else stage.direction
    }
  }

  function Latency(i: Instr, longLatency: LongLatency): (l: nat)
    ensures l > 0
  {
    if i.IsMemStageRequired() || i.IsBranchStageRequired() then 2
    else if i.IsLongArithmetic() then longLatency
    else 1
  }

  function NextAfterFirst(i: Instr): RegisterStage {
    if i.IsLongArithmetic() then RegisterStage(1, 0)
    else if i.IsBranchStageRequired() then BRANCH
    else if i.IsMemStageRequired() then MEM
    else WRITEBACK
  }

  /** The stage whose output is the first result of `i`; setting a bare stage number keeps the
      direction the entry had. */
  function ReadyStage(i: Instr, before: RegisterStage, longLatency: LongLatency): RegisterStage {
    var ready :=
      if i.IsLongArithmetic() then before.(value := longLatency - 1)
      else if i.IsJump() then BRANCH
      else if i.IsLoad() then MEM
      else FIRST_EXECUTION;
    if i.IsBypassible() then ready else ready.(value := IN_RF_STAGE)
  }

  function TracedFirst(e: RegisterInfo, i: Instr, longLatency: LongLatency): RegisterInfo {
    var ready := ReadyStage(i, e.ready, longLatency);
    RegisterInfo(FIRST_EXECUTION, ready, NextAfterFirst(i), FIRST_EXECUTION.value == ready.value, true)
  }

  /** A second destination is never bypassed, yet the entry keeps the bypassible bit it had. */
  function TracedSecond(e: RegisterInfo, i: Instr): RegisterInfo {
    RegisterInfo(FIRST_EXECUTION, e.ready.(value := IN_RF_STAGE), NextAfterFirst(i), e.isBypassible, true)
  }

  function TracedFirstDst(s: Entries, i: Instr, longLatency: LongLatency): Entries {
    if i.dst0 == ZERO then s else s[i.dst0 := TracedFirst(s[i.dst0], i, longLatency)]
  }

  function TracedSecondDst(s: Entries, i: Instr): Entries {
    if i.dst1 == ZERO then s else s[i.dst1 := TracedSecond(s[i.dst1], i)]
  }

  function Traced(b: BypassState, i: Instr, longLatency: LongLatency): BypassState {
    BypassState(TracedSecondDst(TracedFirstDst(b.scoreboard, i, longLatency), i), Latency(i, longLatency))
  }

  function UpdatedEntry(e: RegisterInfo, longLatency: LongLatency): RegisterInfo {
    if !e.isTraced then e
    else if e.current.value == WB_STAGE then UNTRACED
    else
      var current :=
        if e.current.value == FIRST_EXECUTION.value then e.next
        else if e.current.value == longLatency - 1 || e.current.value == MEM_OR_BRANCH_STAGE then WRITEBACK
        else e.current.(value := e.current.value + 1);
      e.(current := current, isBypassible := e.isBypassible || current.value == e.ready.value)
  }

  function Updated(b: BypassState, longLatency: LongLatency): BypassState {
    BypassState(seq(MAX_REG, r requires 0 <= r < MAX_REG => UpdatedEntry(b.scoreboard[r], longLatency)),
                if b.operationLatency != 0 then b.operationLatency - 1 else 0)
  }

  function FlushedEntry(e: RegisterInfo): RegisterInfo {
    if e.isTraced then UNTRACED else e
  }

  function Flushed(b: BypassState): BypassState {
    BypassState(seq(MAX_REG, r requires 0 <= r < MAX_REG => FlushedEntry(b.scoreboard[r])), 0)
  }

  predicate SourceReady(b: BypassState, r: Register) {
    b.scoreboard[r].InRF() || b.scoreboard[r].isBypassible
  }

  /** The write-back bandwidth is Port::BW, one instruction a cycle. */
  predicate IsStall(b: BypassState, i: Instr, longLatency: LongLatency) {
    || !SourceReady(b, i.src0)
    || !SourceReady(b, i.src1)
    || (Latency(i, longLatency) < b.operationLatency && 1 < b.operationLatency)
  }

  function Command(b: BypassState, r: Register, longLatency: LongLatency): BypassCommand {
    BypassCommand(b.scoreboard[r].current, longLatency - 1)
  }
}
