/** The back end of the pipeline, one function per stage and one step per cycle. All ports between
    the stages have latency 1 except the long unit's, which has latency `longLatency - 1`; so a
    stage reads in a cycle what was written in the cycle before, and the fields of `Core` are the
    contents of the ports at the start of a cycle. */
module Pipeline {
  import opened Operations
  import opened Options
  import opened RegisterFile
  import opened FuncSim
  import opened Scoreboard

  datatype Output = Output(v0: Word, v1: Word)

  /** What a write-back of `op` in cycle `cycle` leaves in the record of a run. */
  datatype Retirement = Retirement(op: Op, cycle: nat)

  datatype Core = Core(
    isa: Isa,
    longLatency: LongLatency,
    cycle: nat,
    rf: Registers,
    mem: Memory,
    // decode
    bypass: BypassState,
    stalled: Option<Instr>,          // DECODE_2_DECODE
    flushFetch: bool,                // DECODE_2_FETCH_FLUSH
    notify: Option<Instr>,           // DECODE_2_BYPASSING_UNIT_NOTIFY
    toExecute: Option<Op>,           // DECODE_2_EXECUTE
    command0: Option<BypassCommand>, // DECODE_2_EXECUTE_SRC1_COMMAND
    command1: Option<BypassCommand>, // DECODE_2_EXECUTE_SRC2_COMMAND
    // execute
    flushExpiration: nat,
    longUnit: seq<Option<Op>>,       // EXECUTE_2_EXECUTE_LONG_LATENCY: item k is read k cycles from now
    toMem: Option<Op>,               // EXECUTE_2_MEMORY
    toBranch: Option<Op>,            // EXECUTE_2_BRANCH
    fromExecute: seq<Op>,            // EXECUTE_2_WRITEBACK
    fromMem: Option<Op>,             // MEMORY_2_WRITEBACK
    fromBranch: Option<Op>,          // BRANCH_2_WRITEBACK
    flushAll: bool,                  // BRANCH_2_ALL_FLUSH and BRANCH_2_BYPASSING_UNIT_FLUSH_NOTIFY
    // bypass ports
    bypassExecute: seq<Output>,      // EXECUTE_2_EXECUTE_BYPASS
    bypassLong: seq<Output>,         // EXECUTE_COMPLEX_ALU_2_EXECUTE_BYPASS
    bypassMem: seq<Output>,          // MEMORY_2_EXECUTE_BYPASS
    bypassWriteback: seq<Output>,    // WRITEBACK_2_EXECUTE_BYPASS
    bypassBranch: seq<Output>,       // BRANCH_2_EXECUTE_BYPASS
    // record of the run: what was issued in each cycle, the cycles of the mispredictions found in
    // Branch, what was written back, and what went through load_store
    issued: seq<Option<Instr>>,
    misses: set<nat>,
    retired: seq<Retirement>,
    accessed: seq<Op>)
  {
    ghost predicate Shaped() {
      |longUnit| == longLatency - 1 && |issued| == cycle
    }
  }

  function Reset(longLatency: LongLatency, a: Arch): (s: Core) {
    Core(a.isa, longLatency, 0, a.rf, a.mem, RESET_BYPASS, None, false, None, None, None, None,
         0, seq(longLatency - 1, _ => None), None, None, [], None, None, false,
         [], [], [], [], [], [], {}, [], [])
  }

  // Decode

  datatype DecodeOut = DecodeOut(
    bypass: BypassState, stalled: Option<Instr>, flushFetch: bool,
    issue: Option<Op>, command0: Option<BypassCommand>, command1: Option<BypassCommand>)

  predicate DecodeMisprediction(i: Instr) {
    || ((i.IsDirectJump() || i.IsIndirectJump()) && !i.bp.isTaken)
    || (i.IsLikelyBranch() && !i.bp.isHit)
    || ((i.IsDirectJump() || i.IsBranch()) && i.bp.target != i.decodedTarget && i.bp.isTaken)
  }

  /** The bypassing unit once it has been updated, told of the last issue and flushed if need be. */
  function BypassInDecode(s: Core): BypassState {
    var b := BypassBeforeFlush(s);
    if s.flushAll then Flushed(b) else b
  }

  function BypassBeforeFlush(s: Core): BypassState {
    var b := Updated(s.bypass, s.longLatency);
    match s.notify
    case None => b
    case Some(i) => Traced(b, i, s.longLatency)
  }

  function SourceRead(s: Core, b: BypassState, r: Register): Word {
    if b.scoreboard[r].InRF() then s.rf[r] else NO_VALUE
  }

  function SourceCommand(s: Core, b: BypassState, r: Register): Option<BypassCommand> {
    if !b.scoreboard[r].InRF() && b.scoreboard[r].isBypassible then Some(Command(b, r, s.longLatency)) else None
  }

  /** What decode works on in this cycle: a stalled instruction goes before a fetched one. */
  function DecodeInput(s: Core, fetched: Option<Instr>): Option<Instr> {
    if s.flushAll || s.flushFetch then None
    else if s.stalled.Some? then s.stalled
    else fetched
  }

  function Decode(s: Core, fetched: Option<Instr>): DecodeOut {
    var b := BypassInDecode(s);
    match DecodeInput(s, fetched)
    case None => DecodeOut(b, None, false, None, None, None)
    case Some(i) =>
      if IsStall(b, i, s.longLatency) then DecodeOut(b, Some(i), false, None, None, None)
      else
        DecodeOut(b, None, DecodeMisprediction(i),
                  Some(Op(i, s.cycle, SourceRead(s, b, i.src0), SourceRead(s, b, i.src1), NO_RESULT)),
                  SourceCommand(s, b, i.src0), SourceCommand(s, b, i.src1))
  }

  /** What decode sends on in this cycle. */
  function IssuedInstr(s: Core, fetched: Option<Instr>): Option<Instr> {
    var d := Decode(s, fetched);
    if d.issue.Some? then Some(d.issue.value.instr) else None
  }

  // Execute

  datatype ExecuteOut = ExecuteOut(
    flushExpiration: nat, longUnit: seq<Option<Op>>,
    toMem: Option<Op>, toBranch: Option<Op>, toWriteback: seq<Op>,
    bypassExecute: seq<Output>, bypassLong: seq<Output>)

  function BypassPort(s: Core, direction: nat): seq<Output> {
    if direction == 0 then s.bypassExecute
    else if direction == 1 then s.bypassLong
    else if direction == 2 then s.bypassMem
    else if direction == 3 then s.bypassWriteback
    else s.bypassBranch
  }

  /** The operand execute uses: the value read in decode, or the last one on the commanded port. */
  function Operand(s: Core, vSrc: Word, command: Option<BypassCommand>): Word {
    match command
    case None => vSrc
    case Some(c) =>
      var port := BypassPort(s, c.Direction());
      if port == [] then 0 else port[|port| - 1].v0
  }

  function ExecutedOp(s: Core, x: Op): Op {
    var v0 := Operand(s, x.vSrc0, s.command0);
    var v1 := Operand(s, x.vSrc1, s.command1);
    x.(vSrc0 := v0, vSrc1 := v1, res := s.isa.executor(x.instr.code, v0, v1))
  }

  function OutputOf(x: Op): Output { Output(x.res.v0, x.res.v1) }

  /** The flush counter after the decrement that opens every cycle. */
  function ClockedSavedFlush(s: Core): nat {
    if s.flushExpiration != 0 then s.flushExpiration - 1 else 0
  }

  function LongDone(s: Core): seq<Op>
    requires s.Shaped()
  {
    if s.longUnit[0].Some? && ClockedSavedFlush(s) == 0 then [s.longUnit[0].value] else []
  }

  function Execute(s: Core): (e: ExecuteOut)
    requires s.Shaped()
    ensures |e.longUnit| == s.longLatency - 1
  {
    var rest := s.longUnit[1..];
    if s.flushAll then
      ExecuteOut(s.longLatency - 1, rest + [None], None, None, [], [], [])
    else
      var done := LongDone(s);
      var bypassLong := if done == [] then [] else [OutputOf(done[0])];
      if s.toExecute.None? then
        ExecuteOut(ClockedSavedFlush(s), rest + [None], None, None, done, [], bypassLong)
      else
        var x := ExecutedOp(s, s.toExecute.value);
        if x.instr.IsLongArithmetic() then
          ExecuteOut(ClockedSavedFlush(s), rest + [Some(x)], None, None, done, [], bypassLong)
        else if x.instr.IsJump() then
          ExecuteOut(ClockedSavedFlush(s), rest + [None], None, Some(x), done, [OutputOf(x)], bypassLong)
        else if x.instr.IsMemStageRequired() then
          ExecuteOut(ClockedSavedFlush(s), rest + [None], Some(x), None, done, [OutputOf(x)], bypassLong)
        else
          ExecuteOut(ClockedSavedFlush(s), rest + [None], None, None, done + [x], [OutputOf(x)], bypassLong)
  }

  // Mem

  datatype MemOut = MemOut(mem: Memory, toWriteback: Option<Op>)

  function Accessed(isa: Isa, x: Op, mem: Memory): Op {
    x.(res := LoadStoreResult(isa, x.instr, x.res, mem))
  }

  function Mem(s: Core): MemOut {
    if s.flushAll || s.toMem.None? then MemOut(s.mem, None)
    else
      var x := s.toMem.value;
      MemOut(LoadStoreMemory(s.isa, x.instr, x.vSrc1, x.res, s.mem), Some(Accessed(s.isa, x, s.mem)))
  }

  // Branch

  datatype BranchOut = BranchOut(toWriteback: Option<Op>, miss: bool)

  predicate IsTaken(x: Op) {
    x.instr.IsDirectJump() || x.instr.IsIndirectJump() || x.res.takenBranch
  }

  predicate BranchMisprediction(x: Op) {
    var i := x.instr;
    || (!i.bp.isHit
        && ((i.IsCommonBranch() && IsTaken(x)) || (i.IsLikelyBranch() && !IsTaken(x)) || i.IsIndirectJump()))
    || (i.bp.isHit && i.bp.isTaken != IsTaken(x))
    || ((i.bp.isTaken || i.IsIndirectJump()) && i.bp.target != x.res.newPC)
  }

  function Branch(s: Core): BranchOut {
    if s.flushAll || s.toBranch.None? then BranchOut(None, false)
    else BranchOut(s.toBranch, BranchMisprediction(s.toBranch.value))
  }

  // Writeback

  function AsSeq<T>(o: Option<T>): seq<T> {
    if o.None? then [] else [o.value]
  }

  /** One instruction from each input port: branch, memory, execute. */
  function ReadInstructions(s: Core): seq<Op> {
    AsSeq(s.fromBranch) + AsSeq(s.fromMem) + (if s.fromExecute == [] then [] else [s.fromExecute[0]])
  }

  function WrittenBack(rf: Registers, ops: seq<Op>): Registers
    decreases |ops|
  {
    if ops == [] then rf
    else WrittenBack(WriteDst(rf, ops[0].instr, ops[0].res), ops[1..])
  }

  function Outputs(ops: seq<Op>): (o: seq<Output>)
    ensures |o| == |ops|
  {
    seq(|ops|, k requires 0 <= k < |ops| => OutputOf(ops[k]))
  }

  function Retirements(ops: seq<Op>, cycle: nat): seq<Retirement> {
    seq(|ops|, k requires 0 <= k < |ops| => Retirement(ops[k], cycle))
  }

  // One cycle

  function Next(s: Core, fetched: Option<Instr>): (s': Core)
    requires s.Shaped()
    ensures s'.Shaped()
  {
    var d := Decode(s, fetched);
    var e := Execute(s);
    var m := Mem(s);
    var b := Branch(s);
    var w := ReadInstructions(s);
    var instr := if d.issue.Some? then Some(d.issue.value.instr) else None;
    Core(s.isa, s.longLatency, s.cycle + 1, WrittenBack(s.rf, w), m.mem,
         d.bypass, d.stalled, d.flushFetch, instr, d.issue, d.command0, d.command1,
         e.flushExpiration, e.longUnit, e.toMem, e.toBranch, e.toWriteback, m.toWriteback, b.toWriteback, b.miss,
         e.bypassExecute, e.bypassLong,
         if m.toWriteback.Some? then [OutputOf(m.toWriteback.value)] else [],
         Outputs(w),
         if b.toWriteback.Some? then [OutputOf(b.toWriteback.value)] else [],
         s.issued + [instr],
         if b.miss then s.misses + {s.cycle} else s.misses,
         s.retired + Retirements(w, s.cycle),
         if m.toWriteback.Some? then s.accessed + [m.toWriteback.value] else s.accessed)
  }

  /** `states` are the starts of the successive cycles of a run from reset on the inputs fetch
      delivers, one (or none) a cycle. */
  ghost predicate IsRun(l: LongLatency, a: Arch, inputs: seq<Option<Instr>>, states: seq<Core>) {
    && |states| == |inputs| + 1
    && states[0] == Reset(l, a)
    && forall k :: 0 <= k < |inputs| ==> IsCycle(inputs, states, k)
  }

  ghost predicate IsCycle(inputs: seq<Option<Instr>>, states: seq<Core>, k: nat)
    requires k < |inputs| && |states| == |inputs| + 1
  {
    states[k].Shaped() && states[k + 1] == Next(states[k], inputs[k])
  }
}
