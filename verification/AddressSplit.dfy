/** The split of an address into set, page and offset, and the lazily allocated tree it indexes. */
module AddressSplit {
  import opened Arithmetic
  import opened Operations
  import opened Powers

  datatype Split = Split(setBits: nat, pageBits: nat, offsetBits: nat) {

    function Bits(): nat {
      setBits + pageBits + offsetBits
    }

    /** `(addr & set_mask) >> (page_bits + offset_bits)` */
    function GetSet(addr: Addr): (i: nat)
      ensures i < Pow2(setBits)
    {
      LowBits(ShiftRight(addr, pageBits + offsetBits), setBits)
    }

    /** `(addr & page_mask) >> offset_bits` */
    function GetPage(addr: Addr): (i: nat)
      ensures i < Pow2(pageBits)
    {
      LowBits(ShiftRight(addr, offsetBits), pageBits)
    }

    /** `addr & offindexmask` */
    function GetOffset(addr: Addr): (i: nat)
      ensures i < Pow2(offsetBits)
    {
      LowBits(addr, offsetBits)
    }

    /** `(set << (page_bits + offset_bits)) | (page << offindexbits) | offset`; the parts do not overlap. */
    function GetAddr(index: nat, page: nat, offset: nat): Addr {
      index * Pow2(pageBits + offsetBits) + page * Pow2(offsetBits) + offset
    }

    function Masked(addr: Addr): (a: Addr)
      ensures a < Pow2(Bits())
    {
      LowBits(addr, Bits())
    }
  }

  lemma DigitBelow(q: nat, b: nat, m: nat)
    requires b > 0 && m / b == q
    ensures forall s: nat :: m < s * b ==> q < s
  {
    assert m == q * b + m % b;
    forall s: nat | m < s * b ensures q < s {
      if s < q {
        MultiplesApart(s, q, b);
      }
    }
  }

  /** The split of an address below 2^bits puts together to the address again. */
  lemma SplitInverts(s: Split, addr: Addr)
    requires addr < Pow2(s.Bits())
    ensures s.GetAddr(s.GetSet(addr), s.GetPage(addr), s.GetOffset(addr)) == addr
  {
    hide Pow2;
    var o, p, t := Pow2(s.offsetBits), Pow2(s.pageBits), Pow2(s.setBits);
    Pow2Adds(s.pageBits, s.offsetBits);
    Pow2Adds(s.setBits, s.pageBits + s.offsetBits);
    assert s.Bits() == s.setBits + (s.pageBits + s.offsetBits);
    var po := p * o;
    ThreeDigits(addr, o, p);
    var q := addr / po;
    DigitBelow(q, po, addr);
    QuotientRemainder(q, 0, q, t);
    Distributes(q * p, addr / o % p, o);
    Associates(q, p, o);
  }

  /** In numbers: the offset is the lowest part, the set the highest. */
  lemma SplitParts(s: Split, addr: Addr)
    requires addr < Pow2(s.Bits())
    ensures addr == s.GetSet(addr) * Pow2(s.pageBits + s.offsetBits) + s.GetPage(addr) * Pow2(s.offsetBits)
                    + s.GetOffset(addr)
    ensures s.GetSet(addr) < Pow2(s.setBits) && s.GetPage(addr) < Pow2(s.pageBits)
    ensures s.GetOffset(addr) < Pow2(s.offsetBits)
  {
    hide Pow2, LowBits, ShiftRight;
    SplitInverts(s, addr);
  }

  /** And an address put together from parts in range splits into those parts. */
  lemma PartsInvert(s: Split, index: nat, page: nat, offset: nat)
    requires index < Pow2(s.setBits) && page < Pow2(s.pageBits) && offset < Pow2(s.offsetBits)
    ensures s.GetAddr(index, page, offset) < Pow2(s.Bits())
    ensures s.GetSet(s.GetAddr(index, page, offset)) == index
    ensures s.GetPage(s.GetAddr(index, page, offset)) == page
    ensures s.GetOffset(s.GetAddr(index, page, offset)) == offset
  {
    hide Pow2;
    var o, p, t := Pow2(s.offsetBits), Pow2(s.pageBits), Pow2(s.setBits);
    Pow2Adds(s.pageBits, s.offsetBits);
    Pow2Adds(s.setBits, s.pageBits + s.offsetBits);
    assert s.Bits() == s.setBits + (s.pageBits + s.offsetBits);
    var a := s.GetAddr(index, page, offset);
    PartsDigits(index, page, offset, t, p, o, a);
  }

  lemma PartsDigits(index: nat, page: nat, offset: nat, t: nat, p: nat, o: nat, a: nat)
    requires index < t && page < p && offset < o && a == index * (p * o) + page * o + offset
    ensures a < t * (p * o)
    ensures a / (p * o) % t == index && a / o % p == page && a % o == offset
  {
    Associates(index, p, o);
    Distributes(index * p, page, o);
    var q := index * p + page;
    QuotientRemainder(a, q, offset, o);
    QuotientRemainder(q, index, page, p);
    TwoDigits(a, index, page, offset, p, o);
    QuotientRemainder(a, index, page * o + offset, p * o);
    QuotientRemainder(index, 0, index, t);
    MultiplesApart(index, t, p * o);
  }

  // ---- The tree ----

  type Page = seq<Byte>
  type Tree = seq<seq<Page>>

  /** All sets are there; a set and a page are empty until they are allocated. */
  ghost predicate Shaped(s: Split, m: Tree) {
    && |m| == Pow2(s.setBits)
    && (forall i :: 0 <= i < |m| ==> m[i] == [] || |m[i]| == Pow2(s.pageBits))
    && (forall i, j :: 0 <= i < |m| && 0 <= j < |m[i]| ==> m[i][j] == [] || |m[i][j]| == Pow2(s.offsetBits))
  }

  predicate Check(s: Split, m: Tree, addr: Addr)
    requires Shaped(s, m)
  {
    m[s.GetSet(addr)] != [] && m[s.GetSet(addr)][s.GetPage(addr)] != []
  }

  function CheckAndRead(s: Split, m: Tree, addr: Addr): Byte
    requires Shaped(s, m)
  {
    if Check(s, m, addr) then m[s.GetSet(addr)][s.GetPage(addr)][s.GetOffset(addr)] else 0
  }

  function Alloc(s: Split, m: Tree, addr: Addr): (r: Tree)
    requires Shaped(s, m)
    ensures Shaped(s, r) && Check(s, r, addr)
  {
    var i, j := s.GetSet(addr), s.GetPage(addr);
    var pages := if m[i] == [] then seq(Pow2(s.pageBits), k => []) else m[i];
    var page := if pages[j] == [] then seq(Pow2(s.offsetBits), k => 0) else pages[j];
    m[i := pages[j := page]]
  }

  function WriteByte(s: Split, m: Tree, addr: Addr, value: Byte): (r: Tree)
    requires Shaped(s, m) && Check(s, m, addr)
    ensures Shaped(s, r)
  {
    var i, j, k := s.GetSet(addr), s.GetPage(addr), s.GetOffset(addr);
    m[i := m[i][j := m[i][j][k := value]]]
  }

  /** Allocating does not change what is read anywhere. */
  lemma AllocKeeps(s: Split, m: Tree, addr: Addr, other: Addr)
    requires Shaped(s, m)
    ensures CheckAndRead(s, Alloc(s, m, addr), other) == CheckAndRead(s, m, other)
  {
  }

  /** A write changes exactly its own byte. */
  lemma WriteChanges(s: Split, m: Tree, addr: Addr, value: Byte, other: Addr)
    requires Shaped(s, m) && Check(s, m, addr) && addr < Pow2(s.Bits()) && other < Pow2(s.Bits())
    ensures CheckAndRead(s, WriteByte(s, m, addr, value), other)
         == if other == addr then value else CheckAndRead(s, m, other)
  {
    hide Pow2, LowBits, ShiftRight;
    SplitInverts(s, addr);
    SplitInverts(s, other);
  }

  /** Bits above the address bits are ignored. */
  lemma MaskedReads(s: Split, m: Tree, addr: Addr)
    requires Shaped(s, m)
    ensures CheckAndRead(s, m, addr) == CheckAndRead(s, m, s.Masked(addr))
  {
    MaskedSplits(s, addr);
  }

  lemma MaskedSplits(s: Split, addr: Addr)
    ensures s.GetSet(s.Masked(addr)) == s.GetSet(addr)
    ensures s.GetPage(s.Masked(addr)) == s.GetPage(addr)
    ensures s.GetOffset(s.Masked(addr)) == s.GetOffset(addr)
  {
    hide Pow2;
    var o, p, t := Pow2(s.offsetBits), Pow2(s.pageBits), Pow2(s.setBits);
    Pow2Adds(s.pageBits, s.offsetBits);
    Pow2Adds(s.setBits, s.pageBits + s.offsetBits);
    assert s.Bits() == s.setBits + (s.pageBits + s.offsetBits);
    MaskedDigits(addr, t, p, o);
  }

  lemma MaskedDigits(a: nat, t: nat, p: nat, o: nat)
    requires t > 0 && p > 0 && o > 0 && t * (p * o) > 0 && p * o > 0
    ensures a % (t * (p * o)) / (p * o) % t == a / (p * o) % t
    ensures a % (t * (p * o)) / o % p == a / o % p
    ensures a % (t * (p * o)) % o == a % o
  {
    var po := p * o;
    var q, inner := Reassembled(a, p, o);
    var high, index := q / t, q % t;
    assert q == high * t + index;
    TwoDigits(a, high, index, inner, t, po);
    QuotientRemainder(a, high, index * po + inner, t * po);
    PartsDigits(index, a / o % p, a % o, t, p, o, index * po + inner);
  }

  /** The two lower digits of a number and what is above them. */
  lemma Reassembled(a: nat, p: nat, o: nat) returns (q: nat, inner: nat)
    requires p > 0 && o > 0 && p * o > 0
    ensures q == a / (p * o) && inner == (a / o % p) * o + a % o
    ensures a == q * (p * o) + inner && inner < p * o
  {
    q, inner := a / (p * o), (a / o % p) * o + a % o;
    ThreeDigits(a, o, p);
    TwoDigits(a, q, a / o % p, a % o, p, o);
  }
}
