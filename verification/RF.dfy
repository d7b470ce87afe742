/** The register file object and the sequential simulator built on it. */
module RegisterFileObject {
  import opened Operations
  import opened RegisterFile
  import opened FuncSim

  class RF {
    const values: array<Word>

    ghost predicate Valid()
      reads this
    {
      values.Length == MAX_REG
    }

    ghost function Contents(): Registers
      requires Valid()
      reads this, values
    {
      values[..]
    }

    constructor (initial: Registers)
      ensures Valid() && Contents() == initial && fresh(values)
    {
      values := new Word[MAX_REG](r requires 0 <= r < MAX_REG => initial[r]);
      new;
      assert values[..] == initial;
    }

    method Read(num: Register) returns (val: Word)
      requires Valid()
      ensures val == Contents()[num]
    {
      val := values[num];
    }

    method Write(num: Register, val: Word)
      requires Valid()
      modifies values
      ensures Contents() == Written(old(Contents()), num, val)
    {
      if num != ZERO {
        values[num] := val;
      }
    }

    method WriteUnderMask(num: Register, val: Word, mask: Word)
      requires Valid()
      modifies values
      ensures Contents() == WrittenMasked(old(Contents()), num, val, mask)
    {
      Write(num, ApplyMask(values[num], val, mask));
    }

    method Carry(mask: Word, accumulation: int)
      requires Valid()
      modifies values
      ensures Contents() == Carried(old(Contents()), mask, accumulation)
    {
      WriteUnderMask(HI, Accumulate(values[HI], 1, accumulation).0, mask);
    }

    method WriteAccumulating(num: Register, val: Word, mask: Word, accumulation: int)
      requires Valid()
      modifies values
      ensures Contents() == WrittenAccumulated(old(Contents()), num, val, mask, accumulation)
    {
      var (newVal, doCarry) := Accumulate(values[num], val, accumulation);
      if num == LO && doCarry {
        Carry(mask, accumulation);
      }
      WriteUnderMask(num, newVal, mask);
    }

    method WriteBack(i: Instr, res: Result)
      requires Valid()
      modifies values
      ensures Contents() == WriteDst(old(Contents()), i, res)
    {
      WriteAccumulating(i.dst0, res.v0, res.mask, i.AccumulationType());
      WriteAccumulating(i.dst1, res.v1, ALL_ONES, i.AccumulationType());
    }
  }

  /** The sequential simulator, without its program counter: it is given the instructions. */
  class FuncSimulator {
    const isa: Isa
    const rf: RF
    var mem: Memory

    ghost predicate Valid()
      reads this, rf
    {
      rf.Valid()
    }

    ghost function State(): Arch
      requires Valid()
      reads this, rf, rf.values
    {
      Arch(isa, rf.Contents(), mem)
    }

    constructor (a: Arch)
      ensures Valid() && State() == a && fresh(rf) && fresh(rf.values)
    {
      isa, mem := a.isa, a.mem;
      rf := new RF(a.rf);
    }

    method StepInstr(i: Instr) returns (res: Result)
      requires Valid()
      modifies this`mem, rf.values
      ensures Valid() && State() == Step(old(State()), i) && res == Outcome(old(State()), i)
    {
      var v0 := rf.Read(i.src0);
      var v1 := rf.Read(i.src1);
      var executed := isa.executor(i.code, v0, v1);
      res := LoadStoreResult(isa, i, executed, mem);
      mem := LoadStoreMemory(isa, i, v1, executed, mem);
      rf.WriteBack(i, res);
    }

    method RunProgram(program: seq<Instr>)
      requires Valid()
      modifies this`mem, rf.values
      ensures Valid() && State() == Run(old(State()), program)
    {
      for n := 0 to |program|
        invariant Valid() && State() == Run(old(State()), program[..n])
      {
        var res := StepInstr(program[n]);
        assert program[..n + 1][..n] == program[..n];
      }
      assert program[..|program|] == program;
    }
  }
}
