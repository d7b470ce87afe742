/** The flat and the lazily allocated guest memory, both proved against one specification: a sequence
    of 2^bits bytes that starts as zeros, with the limit up to which it can be written. */
module GuestMemory {
  import opened AddressSplit
  import opened Arithmetic
  import opened Operations
  import opened Options
  import opened Powers

  type Bytes = seq<Byte>

  // ---- The specification ----

  /** A write is refused if it does not lie below the limit. */
  predicate Fits(limit: nat, dst: Addr, size: nat) {
    dst + size <= limit
  }

  function Overwritten(memory: Bytes, dst: Addr, src: Bytes): (r: Bytes)
    requires Fits(|memory|, dst, |src|)
    ensures |r| == |memory|
    ensures forall a :: 0 <= a < |memory| ==> r[a] == if dst <= a < dst + |src| then src[a - dst] else memory[a]
  {
    memory[..dst] + src + memory[dst + |src|..]
  }

  lemma NothingOverwritten(memory: Bytes, dst: Addr)
    requires dst <= |memory|
    ensures Overwritten(memory, dst, []) == memory
  {
  }

  lemma OneMoreOverwritten(memory: Bytes, dst: Addr, src: Bytes, offset: nat)
    requires Fits(|memory|, dst, |src|) && offset < |src|
    ensures Overwritten(memory, dst, src[..offset + 1])
         == Overwritten(memory, dst, src[..offset])[dst + offset := src[offset]]
  {
  }

  function Wrapped(a: nat, size: nat): (r: nat)
    requires size > 0
    ensures r < size
  {
    a % size
  }

  /** The bytes from an address on, around the end of the memory. */
  function BytesFrom(memory: Bytes, src: Addr, size: nat): (r: Bytes)
    requires |memory| > 0
    ensures |r| == size && forall i :: 0 <= i < size ==> r[i] == memory[Wrapped(src + i, |memory|)]
  {
    seq(size, i requires 0 <= i < size => memory[Wrapped(src + i, |memory|)])
  }

  lemma BytesInRange(memory: Bytes, src: Addr, size: nat)
    requires |memory| > 0 && Fits(|memory|, src, size)
    ensures BytesFrom(memory, src, size) == memory[src..src + size]
  {
    hide Wrapped;
    forall i | 0 <= i < size ensures BytesFrom(memory, src, size)[i] == memory[src + i] {
      WrappedInRange(src + i, |memory|);
    }
  }

  lemma WrappedInRange(a: nat, size: nat)
    requires a < size
    ensures Wrapped(a, size) == a
  {
    QuotientRemainder(a, 0, a, size);
  }

  datatype Operation = Write(dst: Addr, src: Bytes) | Read(origin: Addr, size: nat)
  datatype Reply = Written(count: Option<nat>) | Got(bytes: Bytes)

  /** The bytes from an address on, cut at the end of the memory. */
  function BytesUpto(memory: Bytes, src: Addr, size: nat): Bytes
    requires src <= |memory|
  {
    if Fits(|memory|, src, size) then memory[src..src + size] else memory[src..]
  }

  /** Where the two memories differ: how far they can be written, and whether a read goes around the
      end or stops there. */
  datatype Rules = Rules(limit: nat, wraps: bool)

  /** A read that stops at the end has to start within the memory. */
  predicate Legible(op: Operation, size: nat, rules: Rules) {
    op.Read? && !rules.wraps ==> op.origin <= size
  }

  /** What a memory answers, and what it holds afterwards. */
  function Answer(memory: Bytes, rules: Rules, op: Operation): (r: (Bytes, Reply))
    requires |memory| > 0 && rules.limit <= |memory| && Legible(op, |memory|, rules)
    ensures |r.0| == |memory|
  {
    match op
    case Write(dst, src) =>
      if Fits(rules.limit, dst, |src|) then (Overwritten(memory, dst, src), Written(Some(|src|)))
      else (memory, Written(None))
    case Read(src, size) =>
      (memory, Got(if rules.wraps then BytesFrom(memory, src, size) else BytesUpto(memory, src, size)))
  }

  function Answers(memory: Bytes, rules: Rules, ops: seq<Operation>): (r: (Bytes, seq<Reply>))
    requires |memory| > 0 && rules.limit <= |memory| && forall op :: op in ops ==> Legible(op, |memory|, rules)
    ensures |r.0| == |memory| && |r.1| == |ops|
    decreases |ops|
  {
    if ops == [] then (memory, []) else
      var (before, replies) := Answers(memory, rules, ops[..|ops| - 1]);
      var (after, reply) := Answer(before, rules, ops[|ops| - 1]);
      (after, replies + [reply])
  }

  /** Reads stay within the memory; writes may be refused. */
  predicate InRange(op: Operation, size: nat) {
    op.Read? ==> op.origin + op.size <= size
  }

  lemma InRangeIsLegible(ops: seq<Operation>, size: nat, rules: Rules)
    requires forall op :: op in ops ==> InRange(op, size)
    ensures forall op :: op in ops ==> Legible(op, size, rules)
  {
  }

  /** Below the same limit, reads within the memory are answered alike. */
  lemma {:induction false} SameWithin(memory: Bytes, limit: nat, ops: seq<Operation>)
    requires |memory| > 0 && limit <= |memory| && forall op :: op in ops ==> InRange(op, |memory|)
    requires forall op :: op in ops ==> Legible(op, |memory|, Rules(limit, false))
    ensures Answers(memory, Rules(limit, true), ops) == Answers(memory, Rules(limit, false), ops)
    decreases |ops|
  {
    if ops != [] {
      var n := |ops| - 1;
      SameWithin(memory, limit, ops[..n]);
      var before := Answers(memory, Rules(limit, true), ops[..n]).0;
      assert ops[n] in ops;
      if ops[n].Read? {
        BytesInRange(before, ops[n].origin, ops[n].size);
      }
    }
  }

  // ---- The limit of writes ----

  /** `addr_mask + 1` in 64-bit arithmetic; the mask has at most 64 bits. */
  function LimitOf(addrBits: nat): (limit: nat)
    ensures limit <= Pow2(addrBits)
  {
    var maskBits := if addrBits < 64 then addrBits else 64;
    Pow2Monotonic(maskBits, addrBits);
    var mask := Pow2(maskBits) - 1;
    (mask + 1) % TWO_64
  }

  lemma LimitIs(addrBits: nat)
    ensures LimitOf(addrBits) == if addrBits < 64 then Pow2(addrBits) else 0
  {
    Pow2Of32();
    Pow2Adds(32, 32);
    hide Pow2;
    if addrBits < 64 {
      Pow2Less(addrBits);
      QuotientRemainder(Pow2(addrBits), 0, Pow2(addrBits), TWO_64);
    } else {
      QuotientRemainder(TWO_64, 1, 0, TWO_64);
    }
  }

  lemma Pow2Less(k: nat)
    requires k < 64
    ensures Pow2(k) < Pow2(64)
  {
    Pow2Monotonic(k, 63);
    assert Pow2(64) == 2 * Pow2(63);
  }

  /** From 64 address bits on the limit is zero: a write within the memory is refused, unless it is
      empty, exactly in such a memory. */
  lemma RefusedExactly(addrBits: nat, dst: Addr, size: nat)
    requires size > 0 && dst + size <= Pow2(addrBits)
    ensures !Fits(LimitOf(addrBits), dst, size) <==> addrBits >= 64
  {
    hide Pow2, LimitOf;
    LimitIs(addrBits);
  }

  // ---- Mapping checks ----

  datatype Mapping = Legal | TooManySets | TooManyPages | PageTooLarge

  /** The number of set bits in 32-bit arithmetic: a negative one wraps around. */
  function SetBits(addrBits: Word, pageBits: Word, offsetBits: Word): Word {
    (addrBits - offsetBits - pageBits) % TWO_32
  }

  function CheckMapping(addrBits: Word, pageBits: Word, offsetBits: Word): Mapping {
    if SetBits(addrBits, pageBits, offsetBits) >= 32 then TooManySets
    else if pageBits >= 32 then TooManyPages
    else if offsetBits >= 32 then PageTooLarge
    else Legal
  }

  /** Exactly the splits whose parts add up to the address and are all below 32 bits are legal. */
  lemma LegalMapping(addrBits: Word, pageBits: Word, offsetBits: Word)
    ensures CheckMapping(addrBits, pageBits, offsetBits) == Legal <==>
      pageBits < 32 && offsetBits < 32 && pageBits + offsetBits <= addrBits < pageBits + offsetBits + 32
    ensures CheckMapping(addrBits, pageBits, offsetBits) == Legal ==>
      SetBits(addrBits, pageBits, offsetBits) + pageBits + offsetBits == addrBits
  {
    var d := addrBits - offsetBits - pageBits;
    if d >= 0 {
      QuotientRemainder(d, 0, d, TWO_32);
    } else if d >= -TWO_32 {
      QuotientRemainder(d, -1, d + TWO_32, TWO_32);
    } else {
      QuotientRemainder(d, -2, d + 2 * TWO_32, TWO_32);
    }
  }

  // ---- Flat memory ----

  class PlainMemory {
    var arena: Bytes

    ghost predicate Valid()
      reads this
    {
      |arena| > 0
    }

    ghost function Contents(): Bytes
      reads this
    {
      arena
    }

    constructor (addrBits: nat)
      requires addrBits < 64
      ensures Valid() && Contents() == seq(Pow2(addrBits), i => 0)
    {
      arena := seq(Pow2(addrBits), i => 0);
    }

    /** The number of bytes written, or nothing if the write was out of range. */
    method MemcpyHostToGuest(dst: Addr, src: Bytes) returns (written: Option<nat>)
      requires Valid()
      modifies this
      ensures Valid()
      ensures Fits(|old(Contents())|, dst, |src|) ==>
        written == Some(|src|) && Contents() == Overwritten(old(Contents()), dst, src)
      ensures !Fits(|old(Contents())|, dst, |src|) ==> written == None && Contents() == old(Contents())
    {
      var size := |src|;
      if size > |arena| || dst > |arena| || dst > |arena| - size {
        return None;
      }
      arena := Overwritten(arena, dst, src);
      written := Some(size);
    }

    ghost function Rule(): (rules: Rules)
      reads this
      ensures Valid() ==> 0 < |Contents()| && rules.limit == |Contents()|
    {
      Rules(|arena|, false)
    }

    /** Reads up to the end of the memory. */
    method MemcpyGuestToHost(src: Addr, size: nat) returns (bytes: Bytes)
      requires Valid() && src <= |Contents()|
      ensures bytes == BytesUpto(Contents(), src, size)
    {
      var validSize := if size < |arena| - src then size else |arena| - src;
      bytes := arena[src..src + validSize];
    }

    method Perform(op: Operation) returns (reply: Reply)
      requires Valid() && Legible(op, |Contents()|, Rule())
      modifies this
      ensures Valid() && |Contents()| > 0 && Rule() == old(Rule())
      ensures (Contents(), reply) == Answer(old(Contents()), Rule(), op)
    {
      hide BytesUpto, Overwritten;
      match op
      case Write(dst, src) =>
        var written := MemcpyHostToGuest(dst, src);
        reply := Reply.Written(written);
      case Read(src, size) =>
        var bytes := MemcpyGuestToHost(src, size);
        reply := Got(bytes);
    }

    method PerformAll(ops: seq<Operation>) returns (replies: seq<Reply>)
      requires Valid()
      requires forall op :: op in ops ==> Legible(op, |Contents()|, Rule())
      modifies this
      ensures Valid() && Rule() == old(Rule())
      ensures (Contents(), replies) == Answers(old(Contents()), Rule(), ops)
    {
      hide Valid, Contents, Answer, Rule, Legible;
      replies := [];
      for i := 0 to |ops|
        invariant Valid() && Rule() == old(Rule())
        invariant (Contents(), replies) == Answers(old(Contents()), Rule(), ops[..i])
      {
        assert ops[..i + 1][..i] == ops[..i];
        var reply := Perform(ops[i]);
        replies := replies + [reply];
      }
      assert ops[..|ops|] == ops;
    }
  }

  // ---- Memory allocated by sets and pages ----

  class HierarchiedMemory {
    const split: Split
    var memory: Tree

    ghost predicate Valid()
      reads this
    {
      Shaped(split, memory) && (split.Bits() >= 64 ==> forall i :: 0 <= i < |memory| ==> memory[i] == [])
    }

    ghost function Rule(): Rules {
      Rules(LimitOf(split.Bits()), true)
    }

    function ByteAt(addr: Addr): Byte
      requires Valid()
      reads this
    {
      CheckAndRead(split, memory, addr)
    }

    ghost function Contents(): (bytes: Bytes)
      requires Valid()
      reads this
      ensures |bytes| == Pow2(split.Bits())
      ensures forall a :: 0 <= a < |bytes| ==> bytes[a] == ByteAt(a)
    {
      seq(Pow2(split.Bits()), a requires 0 <= a && Valid() reads this => ByteAt(a))
    }

    constructor (split: Split)
      ensures Valid() && this.split == split
      ensures Contents() == seq(Pow2(split.Bits()), i => 0)
    {
      this.split := split;
      memory := seq(Pow2(split.setBits), i => []);
    }

    /** Illegal mappings are refused. */
    static method Create(addrBits: Word, pageBits: Word, offsetBits: Word) returns (memory: Option<HierarchiedMemory>)
      ensures memory.Some? <==> CheckMapping(addrBits, pageBits, offsetBits) == Legal
      ensures memory.Some? ==>
        && memory.value.Valid() && fresh(memory.value)
        && memory.value.split.Bits() == addrBits
        && memory.value.Contents() == seq(Pow2(addrBits), i => 0)
    {
      if CheckMapping(addrBits, pageBits, offsetBits) != Legal {
        return None;
      }
      LegalMapping(addrBits, pageBits, offsetBits);
      hide Shaped, Pow2;
      var created := new HierarchiedMemory(Split(SetBits(addrBits, pageBits, offsetBits), pageBits, offsetBits));
      memory := Some(created);
    }

    method AllocAndWriteByte(addr: Addr, value: Byte)
      requires Valid() && addr < Pow2(split.Bits()) && split.Bits() < 64
      modifies this
      ensures Valid() && Contents() == old(Contents())[addr := value]
    {
      hide Shaped, Pow2, Alloc, WriteByte, CheckAndRead, Check;
      ghost var before := memory;
      memory := Alloc(split, memory, addr);
      forall a: nat | a < Pow2(split.Bits())
        ensures CheckAndRead(split, WriteByte(split, memory, addr, value), a)
             == if a == addr then value else CheckAndRead(split, before, a)
      {
        WriteChanges(split, memory, addr, value, a);
        AllocKeeps(split, before, addr, a);
      }
      memory := WriteByte(split, memory, addr, value);
    }

    /** The number of bytes written, or nothing if the write was out of range. */
    method MemcpyHostToGuest(dst: Addr, src: Bytes) returns (written: Option<nat>)
      requires Valid()
      modifies this
      ensures Valid()
      ensures Fits(LimitOf(split.Bits()), dst, |src|) ==>
        written == Some(|src|) && Contents() == Overwritten(old(Contents()), dst, src)
      ensures !Fits(LimitOf(split.Bits()), dst, |src|) ==> written == None && Contents() == old(Contents())
    {
      hide Valid, Contents, LimitOf, Overwritten, Pow2;
      LimitIs(split.Bits());
      var limit, size := LimitOf(split.Bits()), |src|;
      if size > limit || dst > limit || dst > limit - size {
        return None;
      }
      ghost var before := Contents();
      NothingOverwritten(before, dst);
      var offset := 0;
      while offset < size
        invariant 0 <= offset <= size && Valid()
        invariant Contents() == Overwritten(before, dst, src[..offset])
      {
        OneMoreOverwritten(before, dst, src, offset);
        AllocAndWriteByte(dst + offset, src[offset]);
        offset := offset + 1;
      }
      assert src[..size] == src;
      written := Some(offset);
    }

    /** Reads any addresses; bits above the address bits are ignored. */
    method MemcpyGuestToHost(src: Addr, size: nat) returns (bytes: Bytes)
      requires Valid()
      ensures bytes == BytesFrom(Contents(), src, size)
    {
      hide Pow2;
      bytes := [];
      var offset := 0;
      while offset < size
        invariant 0 <= offset <= size
        invariant bytes == BytesFrom(Contents(), src, offset)
      {
        MaskedReads(split, memory, src + offset);
        bytes := bytes + [ByteAt(src + offset)];
        offset := offset + 1;
      }
    }

    method Perform(op: Operation) returns (reply: Reply)
      requires Valid()
      modifies this
      ensures Valid() && |Contents()| > 0 && Rule().limit <= |Contents()|
      ensures (Contents(), reply) == Answer(old(Contents()), Rule(), op)
    {
      LimitIs(split.Bits());
      hide BytesFrom, Overwritten, Shaped, LimitOf;
      match op
      case Write(dst, src) =>
        var written := MemcpyHostToGuest(dst, src);
        reply := Reply.Written(written);
      case Read(src, size) =>
        var bytes := MemcpyGuestToHost(src, size);
        reply := Got(bytes);
    }

    method PerformAll(ops: seq<Operation>) returns (replies: seq<Reply>)
      requires Valid()
      modifies this
      ensures Valid() && (Contents(), replies) == Answers(old(Contents()), Rule(), ops)
    {
      hide Valid, Contents, Answer, LimitOf;
      replies := [];
      for i := 0 to |ops|
        invariant Valid() && (Contents(), replies) == Answers(old(Contents()), Rule(), ops[..i])
      {
        assert ops[..i + 1][..i] == ops[..i];
        var reply := Perform(ops[i]);
        replies := replies + [reply];
      }
      assert ops[..|ops|] == ops;
    }

    /** Copies every allocated page to a memory of the same size. */
    method DuplicateTo(target: HierarchiedMemory)
      requires Valid() && target.Valid() && target != this && target.split.Bits() == split.Bits()
      requires target.Contents() == seq(Pow2(target.split.Bits()), i => 0)
      modifies target
      ensures target.Valid() && target.Contents() == Contents()
    {
      hide Pow2, Overwritten, Answer;
      var sets, pages := Pow2(split.setBits), Pow2(split.pageBits);
      assert forall a: nat :: a < |Contents()| ==> target.Contents()[a] == 0;
      for i := 0 to |memory|
        invariant target.Valid() && Copied(target.Contents(), i, 0)
      {
        for j := 0 to |memory[i]|
          invariant target.Valid() && Copied(target.Contents(), i, j)
        {
          CopyPage(target, i, j);
        }
        CopiedSet(target.Contents(), i);
      }
      forall a: nat | a < |Contents()| ensures target.Contents()[a] == Contents()[a] {
      }
    }

    /** Up to page `j` of set `i`, the bytes are those of this memory; the rest are zero. */
    ghost predicate Copied(bytes: Bytes, i: nat, j: nat)
      requires Valid()
      reads this
    {
      |bytes| == Pow2(split.Bits()) && forall a: nat :: a < |bytes| ==> bytes[a] == Part(a, i, j)
    }

    ghost function Part(a: nat, i: nat, j: nat): Byte
      requires Valid()
      reads this
    {
      if split.GetSet(a) < i || (split.GetSet(a) == i && split.GetPage(a) < j) then ByteAt(a) else 0
    }

    lemma CopiedSet(bytes: Bytes, i: nat)
      requires Valid() && i < |memory| && Copied(bytes, i, |memory[i]|)
      ensures Copied(bytes, i + 1, 0)
    {
      hide Pow2;
      forall a: nat | a < |bytes| ensures Part(a, i, |memory[i]|) == Part(a, i + 1, 0) {
      }
    }

    method CopyPage(target: HierarchiedMemory, i: nat, j: nat)
      requires Valid() && target.Valid() && target != this && target.split.Bits() == split.Bits()
      requires i < |memory| && j < |memory[i]| && Copied(target.Contents(), i, j)
      modifies target
      ensures target.Valid() && Copied(target.Contents(), i, j + 1)
    {
      hide Pow2, LimitOf;
      LimitIs(split.Bits());
      var start, page := split.GetAddr(i, j, 0), memory[i][j];
      ghost var before := target.Contents();
      PageSpan(split, i, j);
      var _ := target.MemcpyHostToGuest(start, page);
      forall a: nat | a < |before| ensures target.Contents()[a] == Part(a, i, j + 1) {
        PageAddress(split, i, j, a);
      }
    }
  }

  lemma PageSpan(s: Split, i: nat, j: nat)
    requires i < Pow2(s.setBits) && j < Pow2(s.pageBits)
    ensures s.GetAddr(i, j, 0) + Pow2(s.offsetBits) <= Pow2(s.Bits())
  {
    PartsInvert(s, i, j, Pow2(s.offsetBits) - 1);
  }

  /** A page lies at the addresses that split into its set and its number. */
  lemma PageAddress(s: Split, i: nat, j: nat, a: Addr)
    requires i < Pow2(s.setBits) && j < Pow2(s.pageBits) && a < Pow2(s.Bits())
    ensures s.GetAddr(i, j, 0) <= a < s.GetAddr(i, j, 0) + Pow2(s.offsetBits)
       <==> s.GetSet(a) == i && s.GetPage(a) == j
    ensures s.GetSet(a) == i && s.GetPage(a) == j ==> a - s.GetAddr(i, j, 0) == s.GetOffset(a)
  {
    hide Pow2;
    SplitInverts(s, a);
    var start := s.GetAddr(i, j, 0);
    if start <= a < start + Pow2(s.offsetBits) {
      PartsInvert(s, i, j, a - start);
    }
  }

  /** Below 64 address bits, from zeros and for every legal mapping, the two memories answer any run of
      operations alike. */
  method SameAnswers(addrBits: Word, pageBits: Word, offsetBits: Word, ops: seq<Operation>)
    returns (flat: seq<Reply>, tree: seq<Reply>)
    requires CheckMapping(addrBits, pageBits, offsetBits) == Legal && addrBits < 64
    requires forall op :: op in ops ==> InRange(op, Pow2(addrBits))
    ensures flat == tree == Answers(seq(Pow2(addrBits), i => 0), Rules(Pow2(addrBits), true), ops).1
  {
    hide Answers, Shaped, CheckMapping;
    ghost var zeros: Bytes := seq(Pow2(addrBits), i => 0);
    LimitIs(addrBits);
    InRangeIsLegible(ops, |zeros|, Rules(Pow2(addrBits), false));
    SameWithin(zeros, Pow2(addrBits), ops);
    var plain := new PlainMemory(addrBits);
    flat := plain.PerformAll(ops);
    var hierarchied := HierarchiedMemory.Create(addrBits, pageBits, offsetBits);
    tree := hierarchied.value.PerformAll(ops);
  }

  lemma {:induction false} NothingWritten(memory: Bytes, ops: seq<Operation>, k: nat)
    requires |memory| > 0 && k < |ops|
    requires forall a :: 0 <= a < |memory| ==> memory[a] == 0
    ensures var r := Answers(memory, Rules(0, true), ops);
            && r.0 == memory
            && r.1[k] == match ops[k] case Write(dst, src) => Written(if dst == 0 && src == [] then Some(0) else None)
                                      case Read(_, size) => Got(seq(size, i => 0))
    decreases |ops|
  {
    var n := |ops| - 1;
    if n > 0 {
      NothingWritten(memory, ops[..n], if k < n then k else 0);
    }
    var r := Answers(memory, Rules(0, true), ops[..n]);
    assert r.0 == memory;
    if k == n && ops[n].Read? {
      assert BytesFrom(memory, ops[n].origin, ops[n].size) == seq(ops[n].size, i => 0);
    }
  }

  /** From 64 address bits on the lazily allocated memory refuses every write that is not empty, and
      stays all zeros. */
  method WideAnswers(addrBits: Word, pageBits: Word, offsetBits: Word, ops: seq<Operation>) returns (tree: seq<Reply>)
    requires CheckMapping(addrBits, pageBits, offsetBits) == Legal && addrBits >= 64
    ensures |tree| == |ops|
    ensures forall k :: 0 <= k < |ops| ==>
              tree[k] == match ops[k] case Write(dst, src) => Written(if dst == 0 && src == [] then Some(0) else None)
                                      case Read(_, size) => Got(seq(size, i => 0))
  {
    hide Answers, Shaped, CheckMapping;
    LimitIs(addrBits);
    var hierarchied := HierarchiedMemory.Create(addrBits, pageBits, offsetBits);
    ghost var zeros := hierarchied.value.Contents();
    tree := hierarchied.value.PerformAll(ops);
    forall k | 0 <= k < |ops|
      ensures tree[k] == match ops[k] case Write(dst, src) => Written(if dst == 0 && src == [] then Some(0) else None)
                                      case Read(_, size) => Got(seq(size, i => 0))
    {
      NothingWritten(zeros, ops, k);
    }
  }
}
