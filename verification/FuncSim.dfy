/** The sequential reference semantics: one instruction at a time, sources read from the register
    file, executed, sent through memory and written back. */
module FuncSim {
  import opened Operations
  import opened Powers
  import opened RegisterFile

  /** An architecture with its registers and memory. */
  datatype Arch = Arch(isa: Isa, rf: Registers, mem: Memory)

  function LoadStoreResult(isa: Isa, i: Instr, res: Result, mem: Memory): Result {
    if i.IsLoad() then res.(v0 := isa.loader(i.code, mem, res.memAddr)) else res
  }

  function LoadStoreMemory(isa: Isa, i: Instr, vSrc1: Word, res: Result, mem: Memory): Memory {
    if i.IsStore() then isa.storer(i.code, mem, res.memAddr, vSrc1, res.mask) else mem
  }

  /** The result of `i` run on `a`, before memory access. */
  function Executed(a: Arch, i: Instr): Result {
    a.isa.executor(i.code, a.rf[i.src0], a.rf[i.src1])
  }

  /** The final result of `i` run on `a`. */
  function Outcome(a: Arch, i: Instr): Result {
    LoadStoreResult(a.isa, i, Executed(a, i), a.mem)
  }

  function Step(a: Arch, i: Instr): Arch {
    Arch(a.isa,
         WriteDst(a.rf, i, Outcome(a, i)),
         LoadStoreMemory(a.isa, i, a.rf[i.src1], Executed(a, i), a.mem))
  }

  /** The state after running `program` one instruction after the other. */
  function Run(a: Arch, program: seq<Instr>): Arch {
    if program == [] then a
    else Step(Run(a, program[..|program| - 1]), program[|program| - 1])
  }

  // ---- What a step does ----

  /** A store leaves in memory what the architecture stores of its second operand, at the address and
      under the mask that execution gives; nothing else changes memory. */
  lemma StepMemory(a: Arch, i: Instr)
    ensures var e := a.isa.executor(i.code, a.rf[i.src0], a.rf[i.src1]);
            Step(a, i).mem == if i.op == OutStore
                              then a.isa.storer(i.code, a.mem, e.memAddr, a.rf[i.src1], e.mask)
                              else a.mem
  {
    hide WriteDst;
  }

  /** What an instruction has for its first destination: what a load finds at the address, or what
      execution gives. */
  function FirstResult(a: Arch, i: Instr): Word {
    var e := a.isa.executor(i.code, a.rf[i.src0], a.rf[i.src1]);
    match i.op
    case OutLoad => a.isa.loader(i.code, a.mem, e.memAddr)
    case OutLoadu => a.isa.loader(i.code, a.mem, e.memAddr)
    case OutPartialLoad => a.isa.loader(i.code, a.mem, e.memAddr)
    case _ => e.v0
  }

  /** A step of an instruction that does not accumulate: the bits of its mask in its first destination,
      the whole of its second one, and nothing else. */
  lemma StepRegisters(a: Arch, i: Instr, r: Register, k: nat)
    requires i.op != OutRAccum && i.op != OutRSubtr
    ensures var e, after := a.isa.executor(i.code, a.rf[i.src0], a.rf[i.src1]), Step(a, i).rf;
            if r == 0 then after[r] == a.rf[r]
            else if r == i.dst1 then after[r] == e.v1
            else if r == i.dst0 then
              Bit(after[r], k) == if Bit(e.mask, k) then Bit(FirstResult(a, i), k) else Bit(a.rf[r], k)
            else after[r] == a.rf[r]
  {
    hide WriteDst, Bit;
    WriteDstBits(a.rf, i, Outcome(a, i), r, k);
  }

  /** Under the full mask a destination that is only the first one gets the whole result. */
  lemma StepFirst(a: Arch, i: Instr)
    requires i.op != OutRAccum && i.op != OutRSubtr && i.dst0 != 0 && i.dst0 != i.dst1
    requires a.isa.executor(i.code, a.rf[i.src0], a.rf[i.src1]).mask == ALL_ONES
    ensures Step(a, i).rf[i.dst0] == FirstResult(a, i)
  {
    hide ApplyMask;
    FullMask(a.rf[i.dst0], FirstResult(a, i));
  }
}
