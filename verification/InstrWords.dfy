/** The word an instruction fetch reads, byte by byte. */
module InstrWords {
  import opened Endianness
  import opened LoadStore
  import opened Operations

  /** The four bytes at an address as a word. */
  function FetchBytes(mem: Memory, endian: Endian, pc: Addr): Word {
    ReadIsWord(mem, pc, endian);
    Read(mem, pc, 4, endian)
  }

  /** Byte `k` from `pc` on is where the byte order has it in the word. */
  predicate HoldsByte(w: Word, mem: Memory, endian: Endian, pc: Addr, k: nat)
    requires k < 4
  {
    ByteOf(w, if endian == Little then k else 3 - k) == ByteAt(mem, pc + k)
  }

  predicate HoldsBytes(w: Word, mem: Memory, endian: Endian, pc: Addr) {
    && HoldsByte(w, mem, endian, pc, 0) && HoldsByte(w, mem, endian, pc, 1)
    && HoldsByte(w, mem, endian, pc, 2) && HoldsByte(w, mem, endian, pc, 3)
  }

  lemma FetchedByte(mem: Memory, endian: Endian, pc: Addr, k: nat)
    requires k < 4
    ensures HoldsByte(FetchBytes(mem, endian, pc), mem, endian, pc, k)
  {
    hide Packed, ByteAt, ByteOf;
    PackedByte(BytesAt(mem, pc, 4), endian, k);
  }

  /** The word fetched holds the four bytes from `pc` on. */
  lemma FetchedHolds(mem: Memory, endian: Endian, pc: Addr)
    ensures HoldsBytes(FetchBytes(mem, endian, pc), mem, endian, pc)
  {
    hide HoldsByte, FetchBytes;
    FetchedByte(mem, endian, pc, 0);
    FetchedByte(mem, endian, pc, 1);
    FetchedByte(mem, endian, pc, 2);
    FetchedByte(mem, endian, pc, 3);
  }

  /** And nothing else. */
  lemma FetchedWord(mem: Memory, endian: Endian, pc: Addr)
    ensures var w, a, b, c, d := FetchBytes(mem, endian, pc), ByteAt(mem, pc), ByteAt(mem, pc + 1),
                                 ByteAt(mem, pc + 2), ByteAt(mem, pc + 3);
            match endian
            case Little => w == a + 0x100 * b + 0x1_0000 * c + 0x100_0000 * d
            case Big => w == d + 0x100 * c + 0x1_0000 * b + 0x100_0000 * a
  {
    hide ByteAt, Value;
    var bytes := BytesAt(mem, pc, 4);
    assert bytes == [bytes[0], bytes[1], bytes[2], bytes[3]];
    assert Reversed(bytes) == [bytes[3], bytes[2], bytes[1], bytes[0]];
    FourBytes(bytes[0], bytes[1], bytes[2], bytes[3]);
    FourBytes(bytes[3], bytes[2], bytes[1], bytes[0]);
  }

  lemma FourBytes(a: Byte, b: Byte, c: Byte, d: Byte)
    ensures Value([a, b, c, d]) == a + 0x100 * b + 0x1_0000 * c + 0x100_0000 * d
  {
    assert [a, b, c, d][1..] == [b, c, d] && [b, c, d][1..] == [c, d] && [c, d][1..] == [d] && [d][1..] == [];
    assert Value([d]) == d;
    assert Value([c, d]) == c + 0x100 * d;
    assert Value([b, c, d]) == b + 0x100 * Value([c, d]);
  }

  predicate SameFour(mem: Memory, mem': Memory, pc: Addr) {
    && ByteAt(mem, pc) == ByteAt(mem', pc) && ByteAt(mem, pc + 1) == ByteAt(mem', pc + 1)
    && ByteAt(mem, pc + 2) == ByteAt(mem', pc + 2) && ByteAt(mem, pc + 3) == ByteAt(mem', pc + 3)
  }

  /** Two memories give the same word exactly if they agree on the four bytes. */
  lemma FetchDependsOn(mem: Memory, mem': Memory, endian: Endian, pc: Addr)
    ensures FetchBytes(mem, endian, pc) == FetchBytes(mem', endian, pc) <==> SameFour(mem, mem', pc)
  {
    hide ByteAt, ByteOf, FetchBytes;
    FetchedHolds(mem, endian, pc);
    FetchedHolds(mem', endian, pc);
    FetchedWord(mem, endian, pc);
    FetchedWord(mem', endian, pc);
  }

  /** A write is seen by a fetch exactly if it changes one of the four bytes. */
  lemma WriteIsSeen(mem: Memory, endian: Endian, pc: Addr, addr: Addr, byte: Byte)
    ensures FetchBytes(mem[addr := byte], endian, pc) != FetchBytes(mem, endian, pc)
       <==> pc <= addr < pc + 4 && byte != ByteAt(mem, addr)
  {
    hide FetchBytes;
    FetchDependsOn(mem[addr := byte], mem, endian, pc);
  }
}
