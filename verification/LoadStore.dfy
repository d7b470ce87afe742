/** Typed access to memory: integers of some bytes in either order, loads with sign extension, and
    stores under a mask. Registers have four bytes. */
module LoadStore {
  import opened Arithmetic
  import opened Endianness
  import opened Operations
  import opened Powers
  import opened RegisterFile

  const REGISTER_BYTES: nat := 4

  /** A byte never written is zero. */
  function ByteAt(mem: Memory, addr: Addr): Byte {
    if addr in mem then mem[addr] else 0
  }

  function BytesAt(mem: Memory, addr: Addr, size: nat): (bytes: Bytes)
    ensures |bytes| == size && forall k :: 0 <= k < size ==> bytes[k] == ByteAt(mem, addr + k)
  {
    seq<Byte>(size, k requires 0 <= k < size => ByteAt(mem, addr + k))
  }

  function WithBytes(mem: Memory, addr: Addr, bytes: Bytes): (m: Memory)
    ensures forall x: Addr ::
              ByteAt(m, x) == if addr <= x < addr + |bytes| then bytes[x - addr] else ByteAt(mem, x)
    decreases |bytes|
  {
    if bytes == [] then mem else WithBytes(mem[addr := bytes[0]], addr + 1, bytes[1..])
  }

  function Read(mem: Memory, addr: Addr, size: nat, e: Endian): nat {
    Packed(BytesAt(mem, addr, size), e)
  }

  function Written(mem: Memory, addr: Addr, v: nat, size: nat, e: Endian): Memory {
    WithBytes(mem, addr, Unpacked(v, size, e))
  }

  // ---- Loads and stores ----

  /** How many bytes an instruction accesses, and whether it extends their sign. */
  datatype Format = Format(size: nat, signed: bool)

  predicate Admissible(f: Format) {
    0 < f.size <= REGISTER_BYTES
  }

  lemma WordBound()
    ensures Pow2(8 * REGISTER_BYTES) == TWO_32
  {
    Pow2Of32();
  }

  lemma ReadIsWord(mem: Memory, addr: Addr, e: Endian)
    ensures Read(mem, addr, REGISTER_BYTES, e) < TWO_32
  {
    WordBound();
    hide Pow2, Packed;
    PackedBound(BytesAt(mem, addr, REGISTER_BYTES), e);
  }

  /** Does a store mask all of the bytes it accesses? */
  predicate WholeMask(mask: Word, size: nat) {
    LowBits(mask, 8 * size) == Pow2(8 * size) - 1
  }

  /** A store that masks all of its bytes writes them; any other writes the whole word at the address,
      with the bits of the mask replaced. */
  function Stored(mem: Memory, addr: Addr, v: Word, mask: Word, size: nat, e: Endian): Memory {
    if WholeMask(mask, size) then Written(mem, addr, v, size, e)
    else
      ReadIsWord(mem, addr, e);
      Written(mem, addr, ApplyMask(Read(mem, addr, REGISTER_BYTES, e), v, mask), REGISTER_BYTES, e)
  }

  lemma BytesFit(size: nat)
    requires 0 < size <= REGISTER_BYTES
    ensures 1 < Pow2(8 * size) <= TWO_32 && 2 * Pow2(8 * size - 1) == Pow2(8 * size)
  {
    WordBound();
    Pow2Monotonic(8 * size, 8 * REGISTER_BYTES);
  }

  function SignExtended(v: nat, size: nat): (r: Word)
    requires 0 < size <= REGISTER_BYTES && v < Pow2(8 * size)
  {
    BytesFit(size);
    if v >= Pow2(8 * size - 1) then v + TWO_32 - Pow2(8 * size) else v
  }

  function Extended(v: nat, f: Format): (r: Word)
    requires Admissible(f) && v < Pow2(8 * f.size)
  {
    BytesFit(f.size);
    if f.signed then SignExtended(v, f.size) else v
  }

  /** Extension keeps the number the bytes stand for: without a sign, or in two's complement. */
  lemma ExtensionKeepsNumber(v: nat, f: Format)
    requires Admissible(f) && v < Pow2(8 * f.size)
    ensures var r := Extended(v, f);
            if f.signed then
              r - (if r >= Pow2(31) then Pow2(32) else 0)
              == v - (if v >= Pow2(8 * f.size - 1) then Pow2(8 * f.size) else 0)
            else r == v
  {
    Pow2Of32();
    BytesFit(f.size);
    HalfFits(f.size);
    assert Pow2(32) == 2 * Pow2(31);
  }

  lemma HalfFits(size: nat)
    requires 0 < size <= REGISTER_BYTES
    ensures Pow2(8 * size - 1) <= Pow2(31)
  {
    Pow2Monotonic(8 * size - 1, 31);
  }

  /** A load reads the whole word at the address and keeps its low bytes. */
  function Loaded(mem: Memory, addr: Addr, f: Format, e: Endian): Word
    requires Admissible(f)
  {
    Extended(LowBits(Read(mem, addr, REGISTER_BYTES, e), 8 * f.size), f)
  }

  // ---- What a store changes ----

  /** The bytes a store writes. */
  function Footprint(mask: Word, size: nat): nat {
    if WholeMask(mask, size) then size else REGISTER_BYTES
  }

  lemma StoredElsewhere(mem: Memory, addr: Addr, v: Word, mask: Word, size: nat, e: Endian, x: Addr)
    requires x < addr || addr + Footprint(mask, size) <= x
    ensures ByteAt(Stored(mem, addr, v, mask, size, e), x) == ByteAt(mem, x)
  {
    hide WholeMask, ApplyMask, ByteAt, ByteOf, Place, Packed;
    ReadIsWord(mem, addr, e);
  }

  /** A store under a whole mask leaves the bytes of its value, each in its place. */
  lemma BytesStored(mem: Memory, addr: Addr, v: Word, mask: Word, size: nat, e: Endian)
    requires WholeMask(mask, size)
    ensures BytesAt(Stored(mem, addr, v, mask, size, e), addr, size) == Unpacked(v, size, e)
  {
    hide WholeMask, ApplyMask, ByteAt, ByteOf, Place;
  }

  /** What was written is what is read, in either order. */
  lemma ReadWritten(mem: Memory, addr: Addr, v: nat, size: nat, e: Endian)
    ensures Read(Written(mem, addr, v, size, e), addr, size, e) == LowBits(v, 8 * size)
  {
    hide ByteAt, ByteOf, Place, Packed, LowBits;
    PackUnpacked(v, size, e);
    assert BytesAt(Written(mem, addr, v, size, e), addr, size) == Unpacked(v, size, e);
  }

  lemma LowBitsOfSmall(v: nat, bits: nat)
    requires v < Pow2(bits)
    ensures LowBits(v, bits) == v
  {
    QuotientRemainder(v, 0, v, Pow2(bits));
  }

  /** A store under any other mask replaces exactly the bits of the mask in the word at the address. */
  lemma MaskedStoredBits(mem: Memory, addr: Addr, v: Word, mask: Word, size: nat, e: Endian, j: nat)
    requires !WholeMask(mask, size)
    ensures Bit(Read(Stored(mem, addr, v, mask, size, e), addr, REGISTER_BYTES, e), j)
         == if Bit(mask, j) then Bit(v, j) else Bit(Read(mem, addr, REGISTER_BYTES, e), j)
  {
    hide WholeMask, Read, Written, Bit, ApplyMask;
    ReadIsWord(mem, addr, e);
    WordBound();
    var old_ := Read(mem, addr, REGISTER_BYTES, e);
    var merged := ApplyMask(old_, v, mask);
    ReadWritten(mem, addr, merged, REGISTER_BYTES, e);
    LowBitsOfSmall(merged, 8 * REGISTER_BYTES);
    MaskedBit(old_, v, mask, j);
  }

  // ---- A load after a store ----

  /** Read in the little order, the low bytes of the word are the first ones. */
  lemma LowBytesLittle(mem: Memory, addr: Addr, size: nat)
    requires size <= REGISTER_BYTES
    ensures LowBits(Read(mem, addr, REGISTER_BYTES, Little), 8 * size) == Read(mem, addr, size, Little)
  {
    var word := BytesAt(mem, addr, REGISTER_BYTES);
    var low := BytesAt(mem, addr, size);
    hide Value, LowBits, ByteAt, ByteOf;
    var v := Value(word);
    forall k | 0 <= k < size
      ensures Unpacked(v, size, Little)[k] == low[k]
    {
      ByteOfValue(word, k);
    }
    assert Unpacked(v, size, Little) == low;
    ValueOfBytes(v, size);
  }

  /** A load of what a store has left at the same address, with the same size, gives the bytes stored,
      unless a part of a word is accessed in the big order. */
  lemma LoadAfterStore(mem: Memory, addr: Addr, v: Word, mask: Word, f: Format, e: Endian)
    requires Admissible(f) && WholeMask(mask, f.size) && (e == Little || f.size == REGISTER_BYTES)
    ensures Loaded(Stored(mem, addr, v, mask, f.size, e), addr, f, e) == Extended(LowBits(v, 8 * f.size), f)
  {
    hide Read, Written, WholeMask, LowBits, Extended;
    var after := Stored(mem, addr, v, mask, f.size, e);
    ReadWritten(mem, addr, v, f.size, e);
    if f.size == REGISTER_BYTES {
      LowBitsOfLowBits(v, 8 * f.size);
    } else {
      LowBytesLittle(after, addr, f.size);
    }
  }

  lemma LowBitsOfLowBits(v: nat, bits: nat)
    ensures LowBits(LowBits(v, bits), bits) == LowBits(v, bits)
  {
    hide LowBits;
    LowBitsOfSmall(LowBits(v, bits), bits);
  }

  lemma AllOnesIsWhole(size: nat)
    requires 0 < size <= REGISTER_BYTES
    ensures WholeMask(ALL_ONES, size)
  {
    hide Pow2, LowBits, WholeMask;
    var low, high := 8 * size, 8 * (REGISTER_BYTES - size);
    WordBound();
    Pow2Adds(high, low);
    LowOnes(Pow2(high), Pow2(low));
    WholeIs(ALL_ONES, size);
  }

  lemma LowOnes(q: nat, p: nat)
    requires p > 0
    ensures (q * p - 1) % p == p - 1
  {
    assert q * p == (q - 1) * p + p;
    QuotientRemainder(q * p - 1, q - 1, p - 1, p);
  }

  lemma WholeIs(mask: Word, size: nat)
    ensures WholeMask(mask, size) <==> mask % Pow2(8 * size) == Pow2(8 * size) - 1
  {
    hide Pow2;
  }

  /** In the big order a part of a word is stored at its address but loaded from the end of the word
      there: a one stored into zeros is not found again. */
  lemma PartInBigOrder(addr: Addr, f: Format)
    requires Admissible(f) && f.size < REGISTER_BYTES
    ensures Loaded(Stored(map[], addr, 1, ALL_ONES, f.size, Big), addr, f, Big) != Extended(LowBits(1, 8 * f.size), f)
  {
    AllOnesIsWhole(f.size);
    BytesFit(f.size);
    LowBitsOfSmall(1, 8 * f.size);
    var after := Stored(map[], addr, 1, ALL_ONES, f.size, Big);
    var word := Read(after, addr, REGISTER_BYTES, Big);
    StoredElsewhere(map[], addr, 1, ALL_ONES, f.size, Big, addr + REGISTER_BYTES - 1);
    PackedByte(BytesAt(after, addr, REGISTER_BYTES), Big, REGISTER_BYTES - 1);
    assert word % 0x100 == 0;
    LowByteKept(word, f.size);
    hide Pow2, LowBits, Read, Stored;
    assert LowBits(word, 8 * f.size) != 1;
  }

  lemma LowByteKept(v: nat, size: nat)
    requires size > 0
    ensures LowBits(v, 8 * size) % 0x100 == v % 0x100
  {
    hide Pow2;
    EightBits(8 * (size - 1));
    RemainderByDigit(v, Pow2(8 * (size - 1)));
    LowDigit(v % 0x100, v / 0x100 % Pow2(8 * (size - 1)));
  }

  lemma LowDigit(b: Byte, t: nat)
    ensures (b + 0x100 * t) % 0x100 == b
  {
  }

  /** So memory gives back what was stored, whatever it held, exactly if the order is little or the
      access is a whole word. */
  lemma LoadAfterStoreExactly(addr: Addr, f: Format, e: Endian)
    requires Admissible(f)
    ensures (forall mem: Memory, v: Word ::
               Loaded(Stored(mem, addr, v, ALL_ONES, f.size, e), addr, f, e) == Extended(LowBits(v, 8 * f.size), f))
            <==> e == Little || f.size == REGISTER_BYTES
  {
    hide Loaded, Stored, Extended, LowBits, WholeMask;
    AllOnesIsWhole(f.size);
    if e == Little || f.size == REGISTER_BYTES {
      forall mem: Memory, v: Word
        ensures Loaded(Stored(mem, addr, v, ALL_ONES, f.size, e), addr, f, e) == Extended(LowBits(v, 8 * f.size), f)
      {
        LoadAfterStore(mem, addr, v, ALL_ONES, f, e);
      }
    } else {
      PartInBigOrder(addr, f);
      var mem: Memory, v: Word := map[], 1;
      assert Loaded(Stored(mem, addr, v, ALL_ONES, f.size, e), addr, f, e) != Extended(LowBits(v, 8 * f.size), f);
    }
  }
}
