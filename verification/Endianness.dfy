/** Integers as arrays of bytes, in either byte order. */
module Endianness {
  import opened Arithmetic
  import opened Operations
  import opened Powers

  datatype Endian = Little | Big

  type Bytes = seq<Byte>

  /** Byte `k` of an integer, the lowest first. */
  function ByteOf(v: nat, k: nat): Byte {
    if k == 0 then v % 0x100 else ByteOf(v / 0x100, k - 1)
  }

  /** Which byte of an integer of `size` bytes lies at offset `k`. */
  function Place(e: Endian, size: nat, k: nat): nat
    requires k < size
  {
    match e
    case Little => k
    case Big => size - 1 - k
  }

  function Unpacked(v: nat, size: nat, e: Endian): (bytes: Bytes)
    ensures |bytes| == size && forall k :: 0 <= k < size ==> bytes[k] == ByteOf(v, Place(e, size, k))
  {
    seq(size, k requires 0 <= k < size => ByteOf(v, Place(e, size, k)))
  }

  /** The integer of some bytes, the lowest first. */
  function Value(bytes: Bytes): nat {
    if bytes == [] then 0 else bytes[0] + 0x100 * Value(bytes[1..])
  }

  function Reversed(bytes: Bytes): (r: Bytes)
    ensures |r| == |bytes| && forall k :: 0 <= k < |bytes| ==> r[k] == bytes[|bytes| - 1 - k]
  {
    seq(|bytes|, k requires 0 <= k < |bytes| => bytes[|bytes| - 1 - k])
  }

  function Packed(bytes: Bytes, e: Endian): nat {
    match e
    case Little => Value(bytes)
    case Big => Value(Reversed(bytes))
  }

  // ---- The loops ----

  lemma EightBits(n: nat)
    ensures Pow2(n + 8) == 0x100 * Pow2(n)
  {
    assert Pow2(8) == 0x100;
    Pow2Adds(n, 8);
  }

  lemma {:induction false} ValueBound(bytes: Bytes)
    ensures Value(bytes) < Pow2(8 * |bytes|)
  {
    if bytes != [] {
      ValueBound(bytes[1..]);
      EightBits(8 * (|bytes| - 1));
    }
  }

  lemma {:induction false} ValueAppended(bytes: Bytes, b: Byte)
    ensures Value(bytes + [b]) == Value(bytes) + b * Pow2(8 * |bytes|)
  {
    if bytes == [] {
      assert [b][1..] == [];
    } else {
      var n := |bytes| - 1;
      ValueAppended(bytes[1..], b);
      assert (bytes + [b])[1..] == bytes[1..] + [b];
      EightBits(8 * n);
      MulMoved(b, Pow2(8 * n));
    }
  }

  lemma MulMoved(b: nat, p: nat)
    ensures 0x100 * (b * p) == b * (0x100 * p)
  {
  }

  /** Ors every byte, shifted to its place, into the value; the bits never overlap. */
  method PackArray(bytes: Bytes, e: Endian) returns (value: nat)
    ensures value == Packed(bytes, e)
  {
    hide Pow2, Value;
    value := 0;
    ghost var rest := Reversed(bytes);
    match e
    case Little =>
      NoBytes();
      var shift := 0;
      for i := 0 to |bytes|
        invariant shift == 8 * i && value == Value(bytes[..i]) < Pow2(shift)
      {
        ValueAppended(bytes[..i], bytes[i]);
        assert bytes[..i + 1] == bytes[..i] + [bytes[i]];
        ValueBound(bytes[..i + 1]);
        value := value + bytes[i] * Pow2(shift);
        shift := shift + 8;
      }
      assert bytes[..|bytes|] == bytes;
    case Big =>
      NoBytes();
      for i := 0 to |bytes|
        invariant value == Value(Reversed(bytes[..i])) * Pow2(8 * (|bytes| - i))
      {
        var shift := 8 * (|bytes| - 1 - i);
        EightBits(shift);
        ValuePrepended(bytes, i);
        Distributes(bytes[i], Value(Reversed(bytes[..i])), Pow2(shift));
        value := value + bytes[i] * Pow2(shift);
      }
      assert bytes[..|bytes|] == bytes;
      NoShift(Value(Reversed(bytes)));
  }

  lemma NoBytes()
    ensures Value([]) == 0 < Pow2(0) && Value(Reversed([])) == 0
  {
  }

  lemma NoShift(v: nat)
    ensures v * Pow2(0) == v
  {
  }

  lemma Distributes(b: nat, v: nat, p: nat)
    ensures v * (0x100 * p) + b * p == (b + 0x100 * v) * p
  {
  }

  lemma ValuePrepended(bytes: Bytes, i: nat)
    requires i < |bytes|
    ensures Value(Reversed(bytes[..i + 1])) == bytes[i] + 0x100 * Value(Reversed(bytes[..i]))
  {
    assert Reversed(bytes[..i + 1])[1..] == Reversed(bytes[..i]);
  }

  /** Byte by byte, `uint8( value >> shift)`. */
  method UnpackArray(value: nat, size: nat, e: Endian) returns (bytes: Bytes)
    ensures bytes == Unpacked(value, size, e)
  {
    bytes := [];
    for i := 0 to size
      invariant |bytes| == i && forall k :: 0 <= k < i ==> bytes[k] == ByteOf(value, Place(e, size, k))
    {
      var shift := if e == Little then 8 * i else 8 * (size - 1 - i);
      ShiftedByte(value, Place(e, size, i));
      bytes := bytes + [ShiftRight(value, shift) % 0x100];
    }
  }

  /** Byte `k` is what a shift by 8k leaves in the low byte. */
  lemma {:induction false} ShiftedByte(v: nat, k: nat)
    ensures ByteOf(v, k) == ShiftRight(v, 8 * k) % 0x100
  {
    if k > 0 {
      ShiftedByte(v / 0x100, k - 1);
      EightBits(8 * (k - 1));
      QuotientTwice(v, 0x100, Pow2(8 * (k - 1)));
    }
  }

  lemma QuotientTwice(v: nat, m: nat, n: nat)
    requires m > 0 && n > 0
    ensures m * n > 0 && Quotient(Quotient(v, m), n) == Quotient(v, m * n)
  {
    Positive(m, n);
    var q, r := v / m, v % m;
    var q', r' := q / n, q % n;
    assert v == q * m + r;
    assert q == q' * n + r';
    MulTwice(q', m, n, r', r);
    assert v == q' * (m * n) + (r' * m + r);
    MultiplesApart(r', n, m);
    QuotientRemainder(v, q', r' * m + r, m * n);
  }

  lemma Positive(m: nat, n: nat)
    requires m > 0 && n > 0
    ensures m * n > 0
  {
  }

  lemma MulTwice(q: int, m: int, n: int, s: int, r: int)
    ensures (q * n + s) * m + r == q * (m * n) + (s * m + r)
  {
    Associates(q, n, m);
    Commutes(n, m);
  }

  // ---- Bytes and their integer ----

  lemma {:induction false} ByteOfValue(bytes: Bytes, k: nat)
    requires k < |bytes|
    ensures ByteOf(Value(bytes), k) == bytes[k]
  {
    var v := Value(bytes[1..]);
    assert (bytes[0] + 0x100 * v) % 0x100 == bytes[0] && (bytes[0] + 0x100 * v) / 0x100 == v;
    if k > 0 {
      ByteOfValue(bytes[1..], k - 1);
    }
  }

  /** Every byte keeps its place. */
  lemma PackedByte(bytes: Bytes, e: Endian, k: nat)
    requires k < |bytes|
    ensures ByteOf(Packed(bytes, e), Place(e, |bytes|, k)) == bytes[k]
  {
    hide Value;
    match e
    case Little => ByteOfValue(bytes, k);
    case Big => ByteOfValue(Reversed(bytes), |bytes| - 1 - k);
  }

  /** Unpacking gives back the bytes packed, in either order. */
  lemma UnpackPacked(bytes: Bytes, e: Endian)
    ensures Unpacked(Packed(bytes, e), |bytes|, e) == bytes
  {
    hide Packed;
    forall k | 0 <= k < |bytes|
      ensures Unpacked(Packed(bytes, e), |bytes|, e)[k] == bytes[k]
    {
      PackedByte(bytes, e, k);
    }
  }

  lemma PackedBound(bytes: Bytes, e: Endian)
    ensures Packed(bytes, e) < Pow2(8 * |bytes|)
  {
    hide Value, Pow2;
    ValueBound(bytes);
    ValueBound(Reversed(bytes));
  }

  lemma {:induction false} ValueOfBytes(v: nat, size: nat)
    ensures Value(Unpacked(v, size, Little)) == LowBits(v, 8 * size)
  {
    if size == 0 {
      assert v % 1 == 0;
    } else {
      var bytes := Unpacked(v, size, Little);
      assert bytes[1..] == Unpacked(v / 0x100, size - 1, Little);
      ValueOfBytes(v / 0x100, size - 1);
      EightBits(8 * (size - 1));
      RemainderByDigit(v, Pow2(8 * (size - 1)));
    }
  }

  lemma RemainderByDigit(v: nat, m: nat)
    requires m > 0
    ensures v % (0x100 * m) == v % 0x100 + 0x100 * (v / 0x100 % m)
  {
    var q, r := v / 0x100, v % 0x100;
    var q', r' := q / m, q % m;
    assert q == q' * m + r';
    MulTwice(q', 0x100, m, r', r);
    QuotientRemainder(v, q', r' * 0x100 + r, 0x100 * m);
  }

  /** Packing gives back the low bytes of what was unpacked, in either order. */
  lemma PackUnpacked(v: nat, size: nat, e: Endian)
    ensures Packed(Unpacked(v, size, e), e) == LowBits(v, 8 * size)
  {
    hide Value, LowBits;
    ValueOfBytes(v, size);
    assert Reversed(Unpacked(v, size, Big)) == Unpacked(v, size, Little);
  }
}
