/** Size checks of a cache and the split of an address into tag, set and offset. */
module CacheGeometry {
  import opened Arithmetic
  import opened Operations
  import opened Powers

  /** The four numbers a cache is made from, as 32-bit words. */
  datatype Config = Config(sizeInBytes: Word, ways: Word, lineSize: Word, addrBits: Word)

  datatype SizeCheck =
    | Accepted
    | ZeroSize | ZeroWays | ZeroLine | ZeroAddress | WideAddress
    | TooSmall | SizeNotPowerOfTwo | LineNotPowerOfTwo | NotMultiple
    | DivisionByZero

  /** The bytes of one set, in 32-bit arithmetic. */
  function SetBytes(c: Config): Word {
    (c.lineSize * c.ways) % TWO_32
  }

  /** Exactly one bit is set. */
  predicate HasSingleBit(n: nat) {
    n == 1 || (n > 0 && n % 2 == 0 && HasSingleBit(n / 2))
  }

  /** The checks in their order. The last one divides by the wrapped bytes of a set, which may be
      zero. */
  function CheckSize(c: Config): SizeCheck {
    if c.sizeInBytes == 0 then ZeroSize
    else if c.ways == 0 then ZeroWays
    else if c.lineSize == 0 then ZeroLine
    else if c.addrBits == 0 then ZeroAddress
    else if c.addrBits > 32 then WideAddress
    else if c.sizeInBytes < SetBytes(c) then TooSmall
    else if !HasSingleBit(c.sizeInBytes) then SizeNotPowerOfTwo
    else if !HasSingleBit(c.lineSize) then LineNotPowerOfTwo
    else if SetBytes(c) == 0 then DivisionByZero
    else if c.sizeInBytes % SetBytes(c) != 0 then NotMultiple
    else Accepted
  }

  /** Number of trailing zero bits. */
  function CountrZero(n: nat): nat
    requires n > 0
  {
    if n % 2 == 1 then 0 else 1 + CountrZero(n / 2)
  }

  datatype Geometry = Geometry(lineBits: nat, sets: nat, setBits: nat, addrBits: nat) {

    /** `(addr & mask) >> line_bits & (sets - 1)` */
    function SetOf(addr: Addr): nat
      requires sets > 0
    {
      ShiftRight(LowBits(addr, addrBits), lineBits) % sets
    }

    /** `(addr & mask) >> set_bits` */
    function TagOf(addr: Addr): nat {
      ShiftRight(LowBits(addr, addrBits), setBits)
    }

    ghost predicate Valid() {
      IsPow2(sets) && Pow2(setBits) == sets * Pow2(lineBits)
    }
  }

  function GeometryOf(c: Config): Geometry
    requires CheckSize(c) == Accepted
  {
    var sets := c.sizeInBytes / SetBytes(c);
    SetsPositive(c);
    Geometry(CountrZero(c.lineSize), sets, CountrZero(sets) + CountrZero(c.lineSize), c.addrBits)
  }

  lemma SetsPositive(c: Config)
    requires SetBytes(c) != 0 && c.sizeInBytes >= SetBytes(c)
    ensures c.sizeInBytes / SetBytes(c) > 0
  {
    hide SetBytes;
    QuotientAtLeastOne(c.sizeInBytes, SetBytes(c));
  }

  lemma {:induction false} SingleBitIsPow2(n: nat)
    ensures HasSingleBit(n) <==> IsPow2(n)
    decreases n
  {
    if n > 1 {
      SingleBitIsPow2(n / 2);
      if HasSingleBit(n) {
        var k: nat :| n / 2 == Pow2(k);
        assert n == Pow2(k + 1);
      }
      if k: nat :| n == Pow2(k) {
        assert k > 0;
        assert n / 2 == Pow2(k - 1);
      }
    } else if n == 1 {
      assert n == Pow2(0);
    }
  }

  lemma {:induction false} TrailingZeros(k: nat)
    ensures CountrZero(Pow2(k)) == k
  {
    if k > 0 {
      TrailingZeros(k - 1);
      assert Pow2(k) / 2 == Pow2(k - 1);
    }
  }

  /** Both factors of a power of two are powers of two. */
  lemma {:induction false} FactorsOfPow2(x: nat, y: nat, k: nat)
    requires x * y == Pow2(k)
    ensures IsPow2(x) && IsPow2(y)
    decreases k, x
  {
    hide IsPow2;
    if x % 2 == 1 {
      OddFactorIsOne(x, y, k);
    } else {
      var half := x / 2;
      assert x == 2 * half;
      Associates(2, half, y);
      FactorsOfPow2(half, y, k - 1);
      TwiceIsPow2(half);
    }
  }

  lemma TwiceIsPow2(x: nat)
    requires IsPow2(x)
    ensures IsPow2(2 * x)
  {
    var j: nat :| x == Pow2(j);
    assert 2 * x == Pow2(j + 1);
  }

  lemma OddFactorIsOne(x: nat, y: nat, k: nat)
    requires x % 2 == 1 && x * y == Pow2(k)
    ensures IsPow2(x) && IsPow2(y)
  {
    hide Pow2;
    var r := OddFactor(k, x, y, 1);
    var p := Pow2(k);
    Associates(x, r, p);
    OneFactor(x, r, p);
    PowersOfTwo(k);
    assert x == 1 && y == p;
  }

  lemma PowersOfTwo(k: nat)
    ensures IsPow2(1) && IsPow2(Pow2(k))
  {
    assert 1 == Pow2(0);
  }

  lemma OneFactor(x: nat, r: int, p: nat)
    requires p > 0 && (x * r) * p == p && x > 0
    ensures x == 1 && r == 1
  {
    var z := x * r;
    assert z == 1 by {
      if z < 1 {
        MultiplesApart(z, 1, p);
      } else if z > 1 {
        MultiplesApart(1, z, p);
      }
    }
    UnitFactors(x, r);
  }

  lemma UnitFactors(x: nat, r: int)
    requires x * r == 1
    ensures x == 1 && r == 1
  {
    if x > 1 && r > 0 {
      MultiplesApart(1, x, r);
    }
  }

  /** An accepted cache has power-of-two sets and lines, and its sets fill it exactly if and only if
      the bytes of a set did not wrap around 32 bits. */
  lemma AcceptedGeometry(c: Config)
    requires CheckSize(c) == Accepted
    ensures GeometryOf(c).Valid() && Pow2(GeometryOf(c).lineBits) == c.lineSize
    ensures GeometryOf(c).sets * c.ways * c.lineSize == c.sizeInBytes <==> c.ways * c.lineSize < TWO_32
  {
    hide HasSingleBit, CountrZero, Pow2;
    var w, size := SetBytes(c), c.sizeInBytes;
    var sets := size / w;
    SetsPositive(c);
    SingleBitIsPow2(size);
    SingleBitIsPow2(c.lineSize);
    var k: nat :| size == Pow2(k);
    assert size == w * sets;
    FactorsOfPow2(w, sets, k);
    var l: nat, s: nat :| c.lineSize == Pow2(l) && sets == Pow2(s);
    TrailingZeros(l);
    TrailingZeros(s);
    Pow2Adds(s, l);
    FilledExactly(sets, c.ways, c.lineSize, w, size);
  }

  /** Which sizes are accepted: powers of two for the cache and its lines, any number of ways, if the
      bytes of a set, in 32 bits, divide the cache. */
  lemma AcceptedExactly(c: Config)
    ensures CheckSize(c) == Accepted
       <==> IsPow2(c.sizeInBytes) && IsPow2(c.lineSize) && c.ways > 0 && 0 < c.addrBits <= 32
            && (c.lineSize * c.ways) % TWO_32 != 0 && c.sizeInBytes % ((c.lineSize * c.ways) % TWO_32) == 0
  {
    hide HasSingleBit, IsPow2;
    SingleBitIsPow2(c.sizeInBytes);
    SingleBitIsPow2(c.lineSize);
    ZeroIsNotPow2();
    var w := SetBytes(c);
    if w > c.sizeInBytes > 0 {
      QuotientRemainder(c.sizeInBytes, 0, c.sizeInBytes, w);
    }
  }

  lemma ZeroIsNotPow2()
    ensures !IsPow2(0)
  {
  }

  /** The sizes of an accepted cache need not fill it: 2 bytes in 2^31 + 1 ways of 2 bytes. */
  lemma AcceptedThoughWrapped()
    ensures var c := Config(2, 0x8000_0001, 2, 32);
            && CheckSize(c) == Accepted && c.ways * c.lineSize >= TWO_32
            && GeometryOf(c).sets * c.ways * c.lineSize != c.sizeInBytes
  {
    assert SetBytes(Config(2, 0x8000_0001, 2, 32)) == 2;
  }

  /** The tests that come before the division. */
  predicate PassesFirst(c: Config) {
    && c.sizeInBytes > 0 && c.ways > 0 && c.lineSize > 0 && 0 < c.addrBits <= 32
    && HasSingleBit(c.sizeInBytes) && HasSingleBit(c.lineSize)
  }

  /** A line of 2^l bytes makes the check divide by zero exactly if the sizes pass the tests before
      and the ways are a multiple of 2^(32 - l). */
  lemma DividesByZero(c: Config, l: nat)
    requires l <= 32 && c.lineSize == Pow2(l)
    ensures CheckSize(c) == DivisionByZero <==> PassesFirst(c) && c.ways % Pow2(32 - l) == 0
  {
    hide Pow2, HasSingleBit;
    Pow2Of32();
    Pow2Adds(l, 32 - l);
    ScaledResidue(Pow2(l), c.ways, Pow2(32 - l));
    assert SetBytes(c) == Pow2(l) * (c.ways % Pow2(32 - l));
    if c.ways % Pow2(32 - l) > 0 {
      MultiplesApart(0, c.ways % Pow2(32 - l), Pow2(l));
    }
  }

  lemma DividedByZero()
    ensures CheckSize(Config(2, 0x1_0000, 0x1_0000, 32)) == DivisionByZero
  {
    Pow2Of32();
    assert HasSingleBit(2);
    assert HasSingleBit(0x1_0000) by {
      SingleBitIsPow2(0x1_0000);
      assert 0x1_0000 == Pow2(16);
    }
    DividesByZero(Config(2, 0x1_0000, 0x1_0000, 32), 16);
  }

  lemma FilledExactly(sets: nat, ways: nat, lineSize: nat, w: nat, size: Word)
    requires sets > 0 && size == w * sets && w == (lineSize * ways) % TWO_32
    ensures sets * ways * lineSize == size <==> ways * lineSize < TWO_32
  {
    Commutes(lineSize, ways);
    Associates(sets, ways, lineSize);
    Commutes(w, sets);
    if ways * lineSize >= TWO_32 {
      SetsOverflow(sets, ways, lineSize);
    }
  }

  lemma SetsOverflow(sets: nat, ways: nat, lineSize: nat)
    requires sets > 0 && ways * lineSize >= TWO_32
    ensures sets * ways * lineSize >= TWO_32
  {
    Associates(sets, ways, lineSize);
    MultiplesApart(0, sets, ways * lineSize);
  }

  /** Tag, set and offset put together are the masked address, and two addresses agree in tag and set
      exactly if they lie on one line. */
  lemma SplitInverts(g: Geometry, a: Addr)
    requires g.Valid() && g.sets > 0
    ensures g.SetOf(a) < g.sets
    ensures (g.TagOf(a) * g.sets + g.SetOf(a)) * Pow2(g.lineBits) + LowBits(LowBits(a, g.addrBits), g.lineBits)
         == LowBits(a, g.addrBits)
  {
    hide Pow2, IsPow2;
    ThreeDigits(LowBits(a, g.addrBits), Pow2(g.lineBits), g.sets);
  }

  lemma SameLine(g: Geometry, a: Addr, b: Addr)
    requires g.Valid() && g.sets > 0
    ensures g.TagOf(a) == g.TagOf(b) && g.SetOf(a) == g.SetOf(b)
       <==> ShiftRight(LowBits(a, g.addrBits), g.lineBits) == ShiftRight(LowBits(b, g.addrBits), g.lineBits)
  {
    DivideTwice(LowBits(a, g.addrBits), Pow2(g.lineBits), g.sets);
    DivideTwice(LowBits(b, g.addrBits), Pow2(g.lineBits), g.sets);
  }
}
