/** The register file: masked and accumulating writes, and the HI:LO accumulator. */
module RegisterFile {
  import opened Operations
  import opened Powers

  type Registers = s: seq<Word> | |s| == MAX_REG witness seq(MAX_REG, _ => 0)

  const RESET_REGISTERS: Registers := seq(MAX_REG, _ => 0)

  /** The bits of `val` where `mask` has ones, of `old_` elsewhere. */
  function Merge(old_: nat, val: nat, mask: nat): nat
    decreases old_ + val
  {
    if old_ == 0 && val == 0 then 0
    else 2 * Merge(old_ / 2, val / 2, mask / 2) + (if mask % 2 == 1 then val % 2 else old_ % 2)
  }

  lemma {:induction false} MergeBound(old_: nat, val: nat, mask: nat, width: nat)
    requires old_ < Pow2(width) && val < Pow2(width)
    ensures Merge(old_, val, mask) < Pow2(width)
  {
    if width > 0 {
      MergeBound(old_ / 2, val / 2, mask / 2, width - 1);
    }
  }

  function ApplyMask(old_: Word, val: Word, mask: Word): Word {
    Pow2Of32();
    MergeBound(old_, val, mask, 32);
    Merge(old_, val, mask)
  }

  function Written(rf: Registers, num: Register, val: Word): Registers {
    if num == ZERO then rf else rf[num := val]
  }

  function WrittenMasked(rf: Registers, num: Register, val: Word, mask: Word): Registers {
    Written(rf, num, ApplyMask(rf[num], val, mask))
  }

  /** 32-bit addition and its carry-out. */
  function Addition(x: Word, y: Word): (Word, bool) {
    ((x + y) % TWO_32, ALL_ONES - x < y)
  }

  /** 32-bit subtraction and its borrow. */
  function Subtraction(x: Word, y: Word): (Word, bool) {
    ((x - y) % TWO_32, x < y)
  }

  function Accumulate(old_: Word, val: Word, accumulation: int): (Word, bool) {
    if accumulation == 1 then Addition(old_, val)
    else if accumulation == -1 then Subtraction(old_, val)
    else (val, false)
  }

  function Carried(rf: Registers, mask: Word, accumulation: int): Registers {
    WrittenMasked(rf, HI, Accumulate(rf[HI], 1, accumulation).0, mask)
  }

  function WrittenAccumulated(rf: Registers, num: Register, val: Word, mask: Word, accumulation: int): Registers {
    var (newVal, doCarry) := Accumulate(rf[num], val, accumulation);
    var rf1 := if num == LO && doCarry then Carried(rf, mask, accumulation) else rf;
    WrittenMasked(rf1, num, newVal, mask)
  }

  /** The register file after the write-back of `i` with result `res`. */
  function WriteDst(rf: Registers, i: Instr, res: Result): Registers {
    var rf1 := WrittenAccumulated(rf, i.dst0, res.v0, res.mask, i.AccumulationType());
    WrittenAccumulated(rf1, i.dst1, res.v1, ALL_ONES, i.AccumulationType())
  }

  /** Where the mask has a one the bit is that of `val`, elsewhere it is the old one. */
  lemma {:induction false} MergedBit(old_: nat, val: nat, mask: nat, k: nat)
    ensures Bit(Merge(old_, val, mask), k) == if Bit(mask, k) then Bit(val, k) else Bit(old_, k)
    decreases k
  {
    if old_ == 0 && val == 0 {
      NoBits(k);
    } else if k > 0 {
      MergedBit(old_ / 2, val / 2, mask / 2, k - 1);
    }
  }

  lemma {:induction false} NoBits(k: nat)
    ensures !Bit(0, k)
  {
    if k > 0 {
      NoBits(k - 1);
    }
  }

  lemma MaskedBit(old_: Word, val: Word, mask: Word, k: nat)
    ensures Bit(ApplyMask(old_, val, mask), k) == if Bit(mask, k) then Bit(val, k) else Bit(old_, k)
  {
    hide Merge, Bit;
    MergedBit(old_, val, mask, k);
  }

  lemma {:induction false} MergeAllOnes(old_: nat, val: nat, width: nat)
    requires old_ < Pow2(width) && val < Pow2(width)
    ensures Merge(old_, val, Pow2(width) - 1) == val
  {
    if width > 0 {
      var mask := Pow2(width) - 1;
      assert mask == 2 * (Pow2(width - 1) - 1) + 1;
      assert mask / 2 == Pow2(width - 1) - 1 && mask % 2 == 1;
      MergeAllOnes(old_ / 2, val / 2, width - 1);
    }
  }

  lemma FullMask(old_: Word, val: Word)
    ensures ApplyMask(old_, val, ALL_ONES) == val
  {
    Pow2Of32();
    MergeAllOnes(old_, val, 32);
  }

  /** Write-back touches nothing but the destinations. */
  lemma WriteDstFrame(rf: Registers, i: Instr, res: Result, r: Register)
    requires i.WellFormed() && !i.Writes(r)
    ensures WriteDst(rf, i, res)[r] == rf[r]
  {
  }

  lemma {:induction false} MergeNothing(old_: nat, val: nat)
    ensures Merge(old_, val, 0) == old_
    decreases old_ + val
  {
    if old_ + val > 0 {
      MergeNothing(old_ / 2, val / 2);
    }
  }

  /** Under a mask with a zero bit, some old word is not replaced by `val`. */
  lemma {:induction false} PartialMask(val: nat, mask: nat, width: nat) returns (old_: nat)
    requires val < Pow2(width) && mask < Pow2(width) - 1
    ensures old_ < Pow2(width) && Merge(old_, val, mask) != val
  {
    if mask % 2 == 0 {
      old_ := 2 * (val / 2) + 1 - val % 2;
    } else {
      var rest := PartialMask(val / 2, mask / 2, width - 1);
      old_ := 2 * rest + val % 2;
    }
  }

  /** A write leaves the value written, whatever was there, under the full mask alone. */
  lemma FullMaskExactly(val: Word, mask: Word)
    ensures (forall o: Word :: ApplyMask(o, val, mask) == val) <==> mask == ALL_ONES
  {
    if mask == ALL_ONES {
      forall o: Word
        ensures ApplyMask(o, val, mask) == val
      {
        FullMask(o, val);
      }
    } else {
      Pow2Of32();
      var o: Word := PartialMask(val, mask, 32);
      assert ApplyMask(o, val, mask) != val;
    }
  }

  /** What a bypassible instruction leaves in a register that is only its first destination. */
  lemma WriteDstFirst(rf: Registers, i: Instr, res: Result)
    requires i.IsBypassible() && i.dst0 != ZERO && i.dst0 != i.dst1
    ensures WriteDst(rf, i, res)[i.dst0] == ApplyMask(rf[i.dst0], res.v0, res.mask)
  {
  }

  /** What an instruction that does not accumulate leaves in its second destination. */
  lemma WriteDstSecond(rf: Registers, i: Instr, res: Result)
    requires i.AccumulationType() == 0 && i.dst1 != ZERO
    ensures WriteDst(rf, i, res)[i.dst1] == res.v1
  {
    var rf1 := WrittenAccumulated(rf, i.dst0, res.v0, res.mask, 0);
    FullMask(rf1[i.dst1], res.v1);
  }

  /** Unless it accumulates, an instruction replaces the bits of its mask in its first destination, and
      the whole of its second one; all other registers keep their values, and so does register zero. */
  lemma WriteDstBits(rf: Registers, i: Instr, res: Result, r: Register, k: nat)
    requires i.op != OutRAccum && i.op != OutRSubtr
    ensures var after := WriteDst(rf, i, res)[r];
            if r == 0 then after == rf[r]
            else if r == i.dst1 then after == res.v1
            else if r == i.dst0 then Bit(after, k) == if Bit(res.mask, k) then Bit(res.v0, k) else Bit(rf[r], k)
            else after == rf[r]
  {
    hide ApplyMask, Bit;
    MaskedBit(rf[r], res.v0, res.mask, k);
    forall o: Word
      ensures ApplyMask(o, res.v1, ALL_ONES) == res.v1
    {
      FullMask(o, res.v1);
    }
  }

  lemma {:induction false} OnesHaveAllBits(k: nat, width: nat)
    requires k < width
    ensures Bit(Pow2(width) - 1, k)
  {
    var half := Pow2(width - 1) - 1;
    assert Pow2(width) - 1 == 2 * half + 1;
    if k > 0 {
      OnesHaveAllBits(k - 1, width - 1);
      assert (2 * half + 1) / 2 == half;
    }
  }

  lemma AllOnesBits(k: nat)
    requires k < 32
    ensures Bit(ALL_ONES, k)
  {
    Pow2Of32();
    OnesHaveAllBits(k, 32);
  }

  /** The first destination of a bypassible instruction gets the first result, the word bypassing
      forwards, for every register file if and only if the mask is full. */
  lemma ForwardableExactly(i: Instr, res: Result)
    requires i.IsBypassible() && i.dst0 != ZERO && i.dst0 != i.dst1
    ensures (forall rf: Registers :: WriteDst(rf, i, res)[i.dst0] == res.v0) <==> res.mask == ALL_ONES
  {
    hide WriteDst, ApplyMask;
    FullMaskExactly(res.v0, res.mask);
    forall rf: Registers
      ensures WriteDst(rf, i, res)[i.dst0] == ApplyMask(rf[i.dst0], res.v0, res.mask)
    {
      WriteDstFirst(rf, i, res);
    }
    if res.mask != ALL_ONES {
      var o: Word :| ApplyMask(o, res.v0, res.mask) != res.v0;
      var rf: Registers := seq(MAX_REG, _ => o);
      assert WriteDst(rf, i, res)[i.dst0] != res.v0;
    }
  }

  /** The same of an instruction and all its operands. */
  lemma ReplacesExactly(isa: Isa, i: Instr)
    requires i.IsBypassible() && i.dst0 != ZERO && i.dst0 != i.dst1
    ensures isa.ReplacesFirst(i) <==>
            forall rf: Registers, x: Word, y: Word ::
              WriteDst(rf, i, isa.executor(i.code, x, y))[i.dst0] == isa.executor(i.code, x, y).v0
  {
    hide WriteDst;
    forall x: Word, y: Word
      ensures (forall rf: Registers ::
                 WriteDst(rf, i, isa.executor(i.code, x, y))[i.dst0] == isa.executor(i.code, x, y).v0)
              <==> isa.executor(i.code, x, y).mask == ALL_ONES
    {
      ForwardableExactly(i, isa.executor(i.code, x, y));
    }
  }

  /** The pair HI:LO as one 64-bit number. */
  function HiLo(rf: Registers): int {
    rf[HI] * TWO_32 + rf[LO]
  }

  /** A word read as a two's-complement number. */
  function Signed(x: Word): int {
    if x < TWO_32 / 2 then x else x - TWO_32
  }

  function Product(x: Word, y: Word, signed: bool): int {
    if signed then Signed(x) * Signed(y) else x * y
  }

  /** The two halves, low first, of the 64-bit product. */
  function MipsMultiplication(x: Word, y: Word, signed: bool): (Word, Word) {
    var value := Product(x, y, signed) % TWO_64;
    (value % TWO_32, value / TWO_32)
  }

  lemma ResidueIs(x: int, k: int, r: int)
    requires x == r + k * TWO_64 && 0 <= r < TWO_64
    ensures x % TWO_64 == r
  {
  }

  lemma AdditionIs(x: Word, y: Word)
    ensures Addition(x, y) == if x + y < TWO_32 then (x + y, false) else (x + y - TWO_32, true)
  {
  }

  lemma SubtractionIs(x: Word, y: Word)
    ensures Subtraction(x, y) == if x < y then (x - y + TWO_32, true) else (x - y, false)
  {
  }

  lemma HalvesAdded(hi: Word, lo: Word, vh: Word, vl: Word)
    ensures var (lo', c) := Addition(lo, vl);
            var hi1 := if c then Addition(hi, 1).0 else hi;
            Addition(hi1, vh).0 * TWO_32 + lo' == (hi * TWO_32 + lo + (vh * TWO_32 + vl)) % TWO_64
  {
    var (lo', c) := Addition(lo, vl);
    var hi1 := if c then Addition(hi, 1).0 else hi;
    AdditionIs(lo, vl);
    AdditionIs(hi, 1);
    AdditionIs(hi1, vh);
    hide Addition;
    var k := (if c && hi + 1 == TWO_32 then 1 else 0) + (if hi1 + vh < TWO_32 then 0 else 1);
    ResidueIs(hi * TWO_32 + lo + (vh * TWO_32 + vl), k, Addition(hi1, vh).0 * TWO_32 + lo');
  }

  lemma HalvesSubtracted(hi: Word, lo: Word, vh: Word, vl: Word)
    ensures var (lo', c) := Subtraction(lo, vl);
            var hi1 := if c then Subtraction(hi, 1).0 else hi;
            Subtraction(hi1, vh).0 * TWO_32 + lo' == (hi * TWO_32 + lo - (vh * TWO_32 + vl)) % TWO_64
  {
    var (lo', c) := Subtraction(lo, vl);
    var hi1 := if c then Subtraction(hi, 1).0 else hi;
    SubtractionIs(lo, vl);
    SubtractionIs(hi, 1);
    SubtractionIs(hi1, vh);
    hide Subtraction;
    var k := -(if c && hi == 0 then 1 else 0) - (if hi1 < vh then 1 else 0);
    ResidueIs(hi * TWO_32 + lo - (vh * TWO_32 + vl), k, Subtraction(hi1, vh).0 * TWO_32 + lo');
  }

  /** Two 32-bit accumulations joined by a carry (or borrow) are one 64-bit accumulation. */
  lemma TwoHalvesAccumulate(hi: Word, lo: Word, vh: Word, vl: Word, acc: int)
    requires acc == 1 || acc == -1
    ensures var (lo', c) := Accumulate(lo, vl, acc);
            var hi1 := if c then Accumulate(hi, 1, acc).0 else hi;
            Accumulate(hi1, vh, acc).0 * TWO_32 + lo'
            == (hi * TWO_32 + lo + acc * (vh * TWO_32 + vl)) % TWO_64
  {
    hide Addition, Subtraction;
    if acc == 1 {
      HalvesAdded(hi, lo, vh, vl);
    } else {
      HalvesSubtracted(hi, lo, vh, vl);
    }
  }

  lemma ResidueOfSum(a: int, p: int, acc: int)
    requires acc == 1 || acc == -1
    ensures (a + acc * (p % TWO_64)) % TWO_64 == (a + acc * p) % TWO_64
  {
    var q := p / TWO_64;
    var r := (a + acc * (p % TWO_64)) % TWO_64;
    var k := (a + acc * (p % TWO_64)) / TWO_64;
    assert p == q * TWO_64 + p % TWO_64;
    ResidueIs(a + acc * p, k + acc * q, r);
  }

  lemma SignedIs(x: Word)
    ensures Signed(x) == x - x / (TWO_32 / 2) * TWO_32
  {
  }

  lemma ProductIs(x: Word, y: Word, signed: bool)
    ensures Product(x, y, signed)
         == if signed then (x - x / (TWO_32 / 2) * TWO_32) * (y - y / (TWO_32 / 2) * TWO_32) else x * y
  {
    hide Signed;
    SignedIs(x);
    SignedIs(y);
  }

  lemma HalvesOfProduct(x: Word, y: Word, signed: bool)
    ensures var (lo, hi) := MipsMultiplication(x, y, signed); hi * TWO_32 + lo == Product(x, y, signed) % TWO_64
  {
    hide Product;
  }

  /** madd, maddu, msub and msubu on 32-bit registers: two separate 32-bit writes with a carry or
      borrow between them change HI:LO by exactly the 64-bit product, modulo 2^64. */
  lemma AccumulateProduct(rf: Registers, i: Instr, res: Result, x: Word, y: Word, signed: bool)
    requires i.op == OutRAccum || i.op == OutRSubtr
    requires i.dst0 == LO && i.dst1 == HI && res.mask == ALL_ONES
    requires (res.v0, res.v1) == MipsMultiplication(x, y, signed)
    ensures var product := if signed then (x - x / (TWO_32 / 2) * TWO_32) * (y - y / (TWO_32 / 2) * TWO_32) else x * y;
            var after := WriteDst(rf, i, res);
            after[HI] * TWO_32 + after[LO]
            == (rf[HI] * TWO_32 + rf[LO] + (if i.op == OutRAccum then product else -product)) % TWO_64
    ensures forall r: Register :: r != HI && r != LO ==> WriteDst(rf, i, res)[r] == rf[r]
  {
    hide Product, MipsMultiplication, Accumulate, WriteDst;
    var acc := i.AccumulationType();
    var (lo, c) := Accumulate(rf[LO], res.v0, acc);
    var hi1 := if c then Accumulate(rf[HI], 1, acc).0 else rf[HI];
    var hi := Accumulate(hi1, res.v1, acc).0;
    WriteBackOfPair(rf, i, res, lo, c, hi1, hi);
    ProductIs(x, y, signed);
    HalvesOfProduct(x, y, signed);
    TwoHalvesAccumulate(rf[HI], rf[LO], res.v1, res.v0, acc);
    ResidueOfSum(HiLo(rf), Product(x, y, signed), acc);
  }

  lemma WriteBackOfPair(rf: Registers, i: Instr, res: Result, lo: Word, c: bool, hi1: Word, hi: Word)
    requires i.dst0 == LO && i.dst1 == HI && res.mask == ALL_ONES
    requires (lo, c) == Accumulate(rf[LO], res.v0, i.AccumulationType())
    requires hi1 == if c then Accumulate(rf[HI], 1, i.AccumulationType()).0 else rf[HI]
    requires hi == Accumulate(hi1, res.v1, i.AccumulationType()).0
    ensures WriteDst(rf, i, res) == rf[HI := hi][LO := lo]
  {
    FullMask(rf[HI], Accumulate(rf[HI], 1, i.AccumulationType()).0);
    FullMask(rf[LO], lo);
    FullMask(hi1, hi);
  }
}
