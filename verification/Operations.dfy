/** Instructions as the pipeline sees them: the operation classes, the static operands, and the
    result record the stages fill in. What an instruction computes is an arbitrary function of its
    encoding and its operands. */
module Operations {

  const TWO_32: int := 0x1_0000_0000
  const TWO_64: int := 0x1_0000_0000_0000_0000

  type Word = w: int | 0 <= w < TWO_32 witness 0
  type Byte = b: int | 0 <= b < 0x100 witness 0
  type Addr = nat
  type Memory = map<Addr, Byte>

  const MAX_REG: nat := 98
  const ZERO: Register := 0
  const HI: Register := 32
  const LO: Register := 33
  const ALL_ONES: Word := TWO_32 - 1
  const NO_VALUE: Word := 0xDEAD_BEEF

  type Register = r: nat | r < MAX_REG witness 0

  datatype OperationType =
    | OutArithm | OutDivmult | OutRAccum | OutRCondm | OutRJump | OutSyscall | OutBreak | OutRSubtr
    | OutBranch | OutBranchLikely | OutTrap | OutLoad | OutLoadu | OutPartialLoad | OutStore
    | OutJJump | OutJSpecial | OutFpu | OutUnknown

  /** What the branch predictor told fetch about an instruction. */
  datatype BPInterface = BPInterface(isTaken: bool, target: Addr, isHit: bool)

  /** What execution and memory access compute. */
  datatype Result = Result(v0: Word, v1: Word, mask: Word, takenBranch: bool, newPC: Addr, memAddr: Addr)

  const NO_RESULT := Result(NO_VALUE, NO_VALUE, ALL_ONES, false, 0, 0)

  datatype Instr = Instr(
    op: OperationType,
    src0: Register,
    src1: Register,
    dst0: Register,
    dst1: Register,
    decodedTarget: Addr,
    bp: BPInterface,
    code: nat,
    pc: Addr)
  {
    predicate IsDirectJump() { op == OutJJump }

    predicate IsCommonBranch() { op == OutBranch }

    predicate IsLikelyBranch() { op == OutBranchLikely }

    predicate IsBranch() { IsCommonBranch() || IsLikelyBranch() }

    predicate IsIndirectJump() { op == OutRJump }

    predicate IsJump() { IsDirectJump() || IsBranch() || IsIndirectJump() }

    predicate IsPartialLoad() { op == OutPartialLoad }

    predicate IsLoad() { op == OutLoadu || op == OutLoad || IsPartialLoad() }

    predicate IsStore() { op == OutStore }

    predicate IsExplicitTrap() { op == OutTrap }

    predicate IsConditionalMove() { op == OutRCondm }

    function AccumulationType(): int { if op == OutRAccum then 1 else if op == OutRSubtr then -1 else 0 }

    predicate IsDivmult() { op == OutDivmult || AccumulationType() != 0 }

    // The classes the pipeline schedules by.

    predicate IsBypassible() { !IsConditionalMove() && !IsPartialLoad() && AccumulationType() == 0 }

    predicate IsLongArithmetic() { IsDivmult() }

    predicate IsMemStageRequired() { IsLoad() || IsStore() || IsExplicitTrap() }

    predicate IsBranchStageRequired() { IsJump() }

    /** What the decoders guarantee: an accumulating instruction updates LO and HI. */
    predicate WellFormed() { AccumulationType() != 0 ==> dst0 == LO && dst1 == HI }

    predicate Writes(r: Register) { r != ZERO && (r == dst0 || r == dst1) }

  }

  /** What the instructions of an architecture compute: the executor of an encoding on two operands,
      the value a load extracts, and the memory a store leaves (of an address, a value and a mask). */
  datatype Isa = Isa(
    executor: (nat, Word, Word) -> Result,
    loader: (nat, Memory, Addr) -> Word,
    storer: (nat, Memory, Addr, Word, Word) -> Memory)
  {
    /** What a producer must do for its first result to be its new first destination: replace the
        whole word, whatever its operands. */
    ghost predicate ReplacesFirst(i: Instr) {
      i.IsBypassible() && i.dst0 != ZERO ==> forall a: Word, b: Word :: executor(i.code, a, b).mask == ALL_ONES
    }
  }

  /** An instruction in flight: the cycle in which decode issued it, its operands and its result. */
  datatype Op = Op(instr: Instr, born: nat, vSrc0: Word, vSrc1: Word, res: Result)
}
