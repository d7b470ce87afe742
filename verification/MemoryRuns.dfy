/** What a load finds in memory over a whole run: the bytes of the last store to them, however many
    instructions lie between, in the sequential simulator and so in the pipeline. */
module MemoryRuns {
  import opened Arithmetic
  import opened Endianness
  import opened Operations
  import opened Options
  import opened RegisterFile
  import opened FuncSim
  import opened LoadStore
  import opened Scoreboard
  import opened Pipeline
  import opened Theorems

  /** The format of the memory accesses of every encoding. */
  type Formats = nat -> Format

  /** An architecture whose loads and stores are those of a memory of bytes. */
  ghost predicate AccessesBytes(isa: Isa, formats: Formats, e: Endian) {
    && (forall code: nat :: Admissible(formats(code)))
    && (forall code: nat, mem: Memory, addr: Addr ::
          isa.loader(code, mem, addr) == Loaded(mem, addr, formats(code), e))
    && (forall code: nat, mem: Memory, addr: Addr, v: Word, mask: Word ::
          isa.storer(code, mem, addr, v, mask) == Stored(mem, addr, v, mask, formats(code).size, e))
  }

  /** The architecture of an executor and the formats of its encodings. */
  function ByteIsa(executor: (nat, Word, Word) -> Result, formats: Formats, e: Endian): (isa: Isa)
    requires forall code: nat :: Admissible(formats(code))
    ensures isa.executor == executor && AccessesBytes(isa, formats, e)
  {
    Isa(executor,
        (code: nat, mem: Memory, addr: Addr) =>
          if Admissible(formats(code)) then Loaded(mem, addr, formats(code), e) else 0,
        (code: nat, mem: Memory, addr: Addr, v: Word, mask: Word) => Stored(mem, addr, v, mask, formats(code).size, e))
  }

  function EffectOf(a: Arch, i: Instr): Result {
    a.isa.executor(i.code, a.rf[i.src0], a.rf[i.src1])
  }

  lemma StoreIs(isa: Isa, formats: Formats, e: Endian, code: nat, mem: Memory, addr: Addr, v: Word, mask: Word)
    requires AccessesBytes(isa, formats, e)
    ensures isa.storer(code, mem, addr, v, mask) == Stored(mem, addr, v, mask, formats(code).size, e)
    ensures Admissible(formats(code)) && isa.loader(code, mem, addr) == Loaded(mem, addr, formats(code), e)
  {
    hide Loaded, Stored, Admissible;
  }

  /** The instruction, run on `a`, stores to none of the `n` bytes from `addr` on. */
  ghost predicate Spares(a: Arch, formats: Formats, i: Instr, addr: Addr, n: nat) {
    i.op == OutStore ==>
      var r := EffectOf(a, i);
      addr + n <= r.memAddr || r.memAddr + Footprint(r.mask, formats(i.code).size) <= addr
  }

  /** Nor does any instruction of a program. */
  ghost predicate AllSpare(a: Arch, formats: Formats, p: seq<Instr>, addr: Addr, n: nat) {
    p == [] ||
    (AllSpare(a, formats, p[..|p| - 1], addr, n) &&
     Spares(Run(a, p[..|p| - 1]), formats, p[|p| - 1], addr, n))
  }

  lemma SparedStep(a: Arch, formats: Formats, e: Endian, i: Instr, addr: Addr, n: nat)
    requires AccessesBytes(a.isa, formats, e) && Spares(a, formats, i, addr, n)
    ensures BytesAt(Step(a, i).mem, addr, n) == BytesAt(a.mem, addr, n) && Step(a, i).isa == a.isa
  {
    hide AccessesBytes, Step, ByteAt, Footprint, Stored, Loaded;
    StepMemory(a, i);
    SameIsaStep(a, i);
    forall k | 0 <= k < n
      ensures BytesAt(Step(a, i).mem, addr, n)[k] == BytesAt(a.mem, addr, n)[k]
    {
      if i.op == OutStore {
        var r := EffectOf(a, i);
        StoreIs(a.isa, formats, e, i.code, a.mem, r.memAddr, a.rf[i.src1], r.mask);
        StoredElsewhere(a.mem, r.memAddr, a.rf[i.src1], r.mask, formats(i.code).size, e, addr + k);
      }
    }
  }

  lemma SameIsaStep(a: Arch, i: Instr)
    ensures Step(a, i).isa == a.isa
  {
    hide WriteDst;
  }

  /** Bytes that no instruction stores to are kept over any run. */
  lemma {:induction false} SparedBytes(a: Arch, formats: Formats, e: Endian, p: seq<Instr>, addr: Addr, n: nat)
    requires AccessesBytes(a.isa, formats, e) && AllSpare(a, formats, p, addr, n)
    ensures BytesAt(Run(a, p).mem, addr, n) == BytesAt(a.mem, addr, n) && Run(a, p).isa == a.isa
  {
    hide AccessesBytes, Step, BytesAt, Spares;
    if p != [] {
      SparedBytes(a, formats, e, p[..|p| - 1], addr, n);
      SparedStep(Run(a, p[..|p| - 1]), formats, e, p[|p| - 1], addr, n);
    }
  }

  /** A load finds the low bytes of its word in the bytes it accesses, in the little order or as a
      whole word. */
  lemma LoadedFromBytes(m: Memory, m': Memory, addr: Addr, f: Format, e: Endian)
    requires Admissible(f) && (e == Little || f.size == REGISTER_BYTES)
    requires BytesAt(m, addr, f.size) == BytesAt(m', addr, f.size)
    ensures Loaded(m, addr, f, e) == Loaded(m', addr, f, e)
  {
    hide LowBits, Extended, BytesAt, Packed;
    if f.size < REGISTER_BYTES {
      LowBytesLittle(m, addr, f.size);
      LowBytesLittle(m', addr, f.size);
    }
  }

  /** `store` and `load`, run on the given states, access the same bytes and mask none of them. */
  ghost predicate SameAccess(a: Arch, store: Instr, b: Arch, load: Instr, formats: Formats) {
    var s, l := EffectOf(a, store), EffectOf(b, load);
    && store.op == OutStore && load.IsLoad() && load.dst0 != 0 && load.dst0 != load.dst1
    && s.memAddr == l.memAddr && formats(store.code).size == formats(load.code).size
    && WholeMask(s.mask, formats(store.code).size) && l.mask == ALL_ONES
  }

  /** The value a load makes of a register that was stored with its format. */
  function Reloaded(v: Word, f: Format): Word
    requires Admissible(f)
  {
    Extended(LowBits(v, 8 * f.size), f)
  }

  lemma ReloadedIs(a: Arch, b: Arch, formats: Formats, e: Endian, store: Instr, load: Instr)
    requires AccessesBytes(a.isa, formats, e) && b.isa == a.isa && SameAccess(a, store, b, load, formats)
    requires e == Little || formats(load.code).size == REGISTER_BYTES
    requires var addr, n := EffectOf(a, store).memAddr, formats(load.code).size;
             BytesAt(b.mem, addr, n) == BytesAt(Step(a, store).mem, addr, n)
    ensures Admissible(formats(load.code))
    ensures Step(b, load).rf[load.dst0] == Reloaded(a.rf[store.src1], formats(load.code))
  {
    hide AccessesBytes, Step, ByteAt, Stored, Loaded, Extended, LowBits, WholeMask;
    var s, f, v := EffectOf(a, store), formats(load.code), a.rf[store.src1];
    StepMemory(a, store);
    StoreIs(a.isa, formats, e, store.code, a.mem, s.memAddr, v, s.mask);
    StoreIs(a.isa, formats, e, load.code, b.mem, s.memAddr, v, s.mask);
    LoadedFromBytes(b.mem, Step(a, store).mem, s.memAddr, f, e);
    LoadAfterStore(a.mem, s.memAddr, v, s.mask, f, e);
    StepFirst(b, load);
  }

  lemma RunAppended(a: Arch, p: seq<Instr>, q: seq<Instr>)
    ensures Run(a, p + q) == Run(Run(a, p), q)
    decreases |q|
  {
    hide Step;
    if q == [] {
      assert p + q == p;
    } else {
      var n := |q| - 1;
      RunAppended(a, p, q[..n]);
      assert (p + q)[..|p| + n] == p + q[..n];
    }
  }

  lemma RunOnce(a: Arch, i: Instr)
    ensures Run(a, [i]) == Step(a, i)
  {
    hide Step;
    assert [i][..0] == [];
  }

  /** In the sequential simulator a load gives back what was last stored to its bytes, whatever ran
      before, in between and in which registers, if no other store in between touches them. */
  lemma LoadGivesBackStored(a: Arch, formats: Formats, e: Endian, before: seq<Instr>, store: Instr,
                            between: seq<Instr>, load: Instr)
    requires AccessesBytes(a.isa, formats, e)
    requires var a1 := Run(a, before);
             var a2 := Step(a1, store);
             && SameAccess(a1, store, Run(a2, between), load, formats)
             && AllSpare(a2, formats, between, EffectOf(a1, store).memAddr, formats(load.code).size)
    requires e == Little || formats(load.code).size == REGISTER_BYTES
    ensures Admissible(formats(load.code))
    ensures Run(a, before + [store] + between + [load]).rf[load.dst0]
         == Reloaded(Run(a, before).rf[store.src1], formats(load.code))
  {
    hide AccessesBytes, Step, Run, BytesAt, Reloaded, AllSpare, SameAccess, EffectOf, Admissible;
    var a1 := Run(a, before);
    var a2 := Step(a1, store);
    var addr, n := EffectOf(a1, store).memAddr, formats(load.code).size;
    SameIsaRun(a, before);
    RunAppended(a, before, [store]);
    RunOnce(a1, store);
    RunAppended(a, before + [store], between);
    RunAppended(a, before + [store] + between, [load]);
    RunOnce(Run(a2, between), load);
    SameIsaStep(a1, store);
    SameIsaRun(a2, between);
    SparedBytes(a2, formats, e, between, addr, n);
    ReloadedIs(a1, Run(a2, between), formats, e, store, load);
  }

  lemma {:induction false} SameIsaRun(a: Arch, p: seq<Instr>)
    ensures Run(a, p).isa == a.isa
  {
    hide Step;
    if p != [] {
      SameIsaRun(a, p[..|p| - 1]);
      SameIsaStep(Run(a, p[..|p| - 1]), p[|p| - 1]);
    }
  }

  /** And so does the pipeline: once it has written the load back, its register holds what was stored,
      though store and load may have overlapped and crossed flushes and stalls. */
  lemma PipelineGivesBackStored(l: LongLatency, a: Arch, inputs: seq<Option<Instr>>, states: seq<Core>, n: nat,
                                formats: Formats, e: Endian, before: seq<Instr>, store: Instr, between: seq<Instr>,
                                load: Instr)
    requires SafeRun(l, a, inputs, states) && n <= |inputs| && |states| == |inputs| + 1
    requires RetiredInstrs(states[n].retired) == before + [store] + between + [load]
    requires AccessesBytes(a.isa, formats, e) && (e == Little || formats(load.code).size == REGISTER_BYTES)
    requires var a1 := Run(a, before);
             var a2 := Step(a1, store);
             && SameAccess(a1, store, Run(a2, between), load, formats)
             && AllSpare(a2, formats, between, EffectOf(a1, store).memAddr, formats(load.code).size)
    ensures Admissible(formats(load.code))
    ensures states[n].rf[load.dst0] == Reloaded(Run(a, before).rf[store.src1], formats(load.code))
  {
    hide *;
    PipelineRefinesFuncSim(l, a, inputs, states, n);
    LoadGivesBackStored(a, formats, e, before, store, between, load);
  }

  /** Bytes that nothing written back has stored to are in a drained pipeline as they were at reset. */
  lemma DrainedKeepsBytes(l: LongLatency, a: Arch, inputs: seq<Option<Instr>>, states: seq<Core>, n: nat,
                          formats: Formats, e: Endian, addr: Addr, size: nat)
    requires SafeRun(l, a, inputs, states) && n <= |inputs| && |states| == |inputs| + 1 && Drained(states[n])
    requires AccessesBytes(a.isa, formats, e)
    requires AllSpare(a, formats, RetiredInstrs(states[n].retired), addr, size)
    ensures BytesAt(states[n].mem, addr, size) == BytesAt(a.mem, addr, size)
  {
    hide *;
    DrainedIsSequential(l, a, inputs, states, n);
    SparedBytes(a, formats, e, RetiredInstrs(states[n].retired), addr, size);
  }

  /** And the last store to some bytes leaves them there. */
  lemma DrainedHoldsStored(l: LongLatency, a: Arch, inputs: seq<Option<Instr>>, states: seq<Core>, n: nat,
                           formats: Formats, e: Endian, before: seq<Instr>, store: Instr, after: seq<Instr>)
    requires SafeRun(l, a, inputs, states) && n <= |inputs| && |states| == |inputs| + 1 && Drained(states[n])
    requires RetiredInstrs(states[n].retired) == before + [store] + after
    requires AccessesBytes(a.isa, formats, e) && store.op == OutStore
    requires var a1 := Run(a, before);
             var r := EffectOf(a1, store);
             && WholeMask(r.mask, formats(store.code).size)
             && AllSpare(Step(a1, store), formats, after, r.memAddr, formats(store.code).size)
    ensures var size := formats(store.code).size;
            BytesAt(states[n].mem, EffectOf(Run(a, before), store).memAddr, size)
            == Unpacked(Run(a, before).rf[store.src1], size, e)
  {
    hide AccessesBytes, Step, Run, BytesAt, Unpacked, AllSpare, WholeMask, SafeRun, Drained, Stored, Loaded;
    var a1, size := Run(a, before), formats(store.code).size;
    var a2, r := Step(a1, store), EffectOf(a1, store);
    DrainedIsSequential(l, a, inputs, states, n);
    RunAppended(a, before + [store], after);
    RunAppended(a, before, [store]);
    RunOnce(a1, store);
    SameIsaRun(a, before);
    SameIsaStep(a1, store);
    SparedBytes(a2, formats, e, after, r.memAddr, size);
    StepMemory(a1, store);
    StoreIs(a1.isa, formats, e, store.code, a1.mem, r.memAddr, a1.rf[store.src1], r.mask);
    BytesStored(a1.mem, r.memAddr, a1.rf[store.src1], r.mask, size, e);
  }
}
