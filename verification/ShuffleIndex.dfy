/** Where the shuffle networks take each bit from, for every control, in terms of the binary digits of
    its index: level `m` of a network exchanges the digits `m` and `m + 1`. */
module ShuffleIndex {
  import opened BitPermutation
  import opened Powers

  /** The lowest `k` binary digits of an index. */
  function Digits(j: nat, k: nat): (s: Bits)
    ensures |s| == k && forall i :: 0 <= i < k ==> s[i] == Bit(j, i)
  {
    seq(k, i requires 0 <= i < k => Bit(j, i))
  }

  /** The index of some digits. */
  function Index(s: Bits): nat {
    if s == [] then 0 else (if s[0] then 1 else 0) + 2 * Index(s[1..])
  }

  function Swapped(s: Bits, m: nat): (r: Bits)
    requires m + 1 < |s|
    ensures |r| == |s|
  {
    s[m := s[m + 1]][m + 1 := s[m]]
  }

  /** The exchanges of the digits of the control below `limit`, the lowest first. */
  function Upwards(s: Bits, control: nat, limit: nat): (r: Bits)
    requires limit < |s| || limit == 0
    ensures |r| == |s|
  {
    if limit == 0 then s else
      var before := Upwards(s, control, limit - 1);
      if Bit(control, limit - 1) then Swapped(before, limit - 1) else before
  }

  /** The same exchanges, the highest first. */
  function Downwards(s: Bits, control: nat, limit: nat): (r: Bits)
    requires limit < |s| || limit == 0
    ensures |r| == |s|
    decreases limit
  {
    if limit == 0 then s
    else Downwards(if Bit(control, limit - 1) then Swapped(s, limit - 1) else s, control, limit - 1)
  }

  // ---- Digits and indices ----

  lemma DigitsTail(j: nat, k: nat)
    requires k > 0
    ensures Digits(j, k)[1..] == Digits(j / 2, k - 1) && Digits(j, k)[0] == (j % 2 == 1)
    ensures Digits(j, k) == [j % 2 == 1] + Digits(j / 2, k - 1)
  {
  }

  /** An index is that of its digits. */
  lemma {:induction false} IndexOfDigits(j: nat, k: nat)
    requires j < Pow2(k)
    ensures Index(Digits(j, k)) == j
  {
    if k > 0 {
      DigitsTail(j, k);
      IndexOfDigits(j / 2, k - 1);
    }
  }

  lemma {:induction false} IndexBound(s: Bits)
    ensures Index(s) < Pow2(|s|)
  {
    if s != [] {
      IndexBound(s[1..]);
    }
  }

  lemma {:induction false} DigitsOfIndex(s: Bits)
    ensures Digits(Index(s), |s|) == s
  {
    if s != [] {
      DigitsTail(Index(s), |s|);
      DigitsOfIndex(s[1..]);
      assert Index(s) / 2 == Index(s[1..]);
      assert s == [s[0]] + s[1..];
    }
  }

  lemma SwappedInTail(b: bool, s: Bits, m: nat)
    requires m + 1 < |s|
    ensures Swapped([b] + s, m + 1) == [b] + Swapped(s, m)
  {
  }

  lemma SwappedAtHead(a: bool, b: bool, s: Bits)
    ensures Swapped([a] + ([b] + s), 0) == [b] + ([a] + s)
  {
  }

  /** `Exchanged` exchanges two digits and leaves the others. */
  lemma {:induction false} ExchangedDigits(n: nat, level: nat, k: nat)
    requires level + 1 < k
    ensures Digits(Exchanged(n, level), k) == Swapped(Digits(n, k), level)
  {
    hide *;
    var after := Exchanged(n, level);
    DigitsTail(n, k);
    DigitsTail(after, k);
    if level > 0 {
      ExchangedDigits(n / 2, level - 1, k - 1);
      ExchangedStep(n, level);
      HalfAndDigit(Exchanged(n / 2, level - 1), n % 2);
      SwappedInTail(n % 2 == 1, Digits(n / 2, k - 1), level - 1);
    } else {
      LowDigits(n);
      DigitsTail(n / 2, k - 1);
      DigitsTail(after / 2, k - 1);
      SwappedAtHead(n % 2 == 1, n / 2 % 2 == 1, Digits(n / 2 / 2, k - 2));
    }
  }

  lemma HalfAndDigit(h: nat, d: nat)
    requires d < 2
    ensures (2 * h + d) / 2 == h && (2 * h + d) % 2 == d
  {
  }

  lemma LowDigits(n: nat)
    ensures var after := Exchanged(n, 0);
            after % 2 == n / 2 % 2 && after / 2 % 2 == n % 2 && after / 2 / 2 == n / 2 / 2 == n / 4
  {
    var high, low := n / 4, n % 4;
    Quarters(high, low);
    Quarters(high, if low == 1 then 2 else if low == 2 then 1 else low);
  }

  lemma Quarters(high: nat, low: nat)
    requires low < 4
    ensures var n := 4 * high + low;
            n / 4 == high == n / 2 / 2 && n % 4 == low && n % 2 == low % 2 && n / 2 % 2 == low / 2
  {
    assert (4 * high + low) / 2 == 2 * high + low / 2;
  }

  // ---- The networks ----

  lemma ShuffledFrom(v: Bits, level: nat, k: nat, s: Bits)
    requires |v| == Pow2(k) && level + 1 < k && |s| == k
    ensures Index(s) < |v| && Index(Swapped(s, level)) < |v|
    ensures BitShuffle(v, level)[Index(s)] == v[Index(Swapped(s, level))]
  {
    hide BitShuffle, Exchanged, Digits, Index, Swapped, Pow2;
    IndexBound(s);
    IndexBound(Swapped(s, level));
    ShuffleAt(v, level, k, Index(s));
    ExchangedDigits(Index(s), level, k);
    DigitsOfIndex(s);
    ExchangedBound(Index(s), level, k);
    IndexOfDigits(Exchanged(Index(s), level), k);
  }

  lemma {:induction false} ShuffledIndex(v: Bits, control: nat, limit: nat, k: nat, s: Bits)
    requires |v| == Pow2(k) && limit < k && |s| == k
    ensures Index(s) < |v| && Index(Upwards(s, control, limit)) < |v|
    ensures Shuffled(v, control, limit)[Index(s)] == v[Index(Upwards(s, control, limit))]
    decreases limit
  {
    hide BitShuffle, Index, Swapped, Pow2, Bit;
    IndexBound(s);
    IndexBound(Upwards(s, control, limit));
    if limit > 0 {
      var first := if Bit(control, limit - 1) then BitShuffle(v, limit - 1) else v;
      ShuffledIndex(first, control, limit - 1, k, s);
      ShuffledFrom(v, limit - 1, k, Upwards(s, control, limit - 1));
    }
  }

  lemma {:induction false} UnshuffledIndex(v: Bits, control: nat, limit: nat, k: nat, s: Bits)
    requires |v| == Pow2(k) && limit < k && |s| == k
    ensures Index(s) < |v| && Index(Downwards(s, control, limit)) < |v|
    ensures Unshuffled(v, control, limit)[Index(s)] == v[Index(Downwards(s, control, limit))]
    decreases limit
  {
    hide BitShuffle, Index, Swapped, Pow2, Bit;
    IndexBound(s);
    IndexBound(Downwards(s, control, limit));
    if limit > 0 {
      ShuffledFrom(Unshuffled(v, control, limit - 1), limit - 1, k, s);
      UnshuffledIndex(v, control, limit - 1, k, if Bit(control, limit - 1) then Swapped(s, limit - 1) else s);
    }
  }

  /** shfl takes bit j from the index whose digits are those of j after the exchanges of the control,
      the lowest first. */
  lemma ShuffleMeaning(v: Bits, control: nat, limit: nat, k: nat, j: nat)
    requires |v| == Pow2(k) && limit < k && j < |v|
    ensures Index(Upwards(Digits(j, k), control, limit)) < |v|
    ensures Shuffled(v, control, limit)[j] == v[Index(Upwards(Digits(j, k), control, limit))]
  {
    hide Index, Digits, Shuffled, Upwards, Pow2;
    ShuffledIndex(v, control, limit, k, Digits(j, k));
    IndexOfDigits(j, k);
  }

  /** unshfl takes it from the index after the same exchanges, the highest first. */
  lemma UnshuffleMeaning(v: Bits, control: nat, limit: nat, k: nat, j: nat)
    requires |v| == Pow2(k) && limit < k && j < |v|
    ensures Index(Downwards(Digits(j, k), control, limit)) < |v|
    ensures Unshuffled(v, control, limit)[j] == v[Index(Downwards(Digits(j, k), control, limit))]
  {
    hide Index, Digits, Unshuffled, Downwards, Pow2;
    UnshuffledIndex(v, control, limit, k, Digits(j, k));
    IndexOfDigits(j, k);
  }

  // ---- One level ----

  lemma {:induction false} PowerBit(m: nat, i: nat)
    ensures Bit(Pow2(m), i) <==> i == m
  {
    if m > 0 && i > 0 {
      PowerBit(m - 1, i - 1);
    } else if m == 0 && i > 0 {
      HighBitClear(0, 0, i - 1);
    }
  }

  lemma {:induction false} OneExchange(s: Bits, m: nat, limit: nat)
    requires m + 1 < |s| && limit < |s|
    ensures Upwards(s, Pow2(m), limit) == if m < limit then Swapped(s, m) else s
    ensures Downwards(s, Pow2(m), limit) == if m < limit then Swapped(s, m) else s
  {
    hide Bit, Pow2, Swapped;
    if limit > 0 {
      PowerBit(m, limit - 1);
      OneExchange(s, m, limit - 1);
      if m == limit - 1 {
        NoExchange(Swapped(s, m), m, limit - 1);
      }
    }
  }

  lemma {:induction false} NoExchange(s: Bits, m: nat, limit: nat)
    requires limit <= m && limit < |s|
    ensures Downwards(s, Pow2(m), limit) == s
  {
    hide Bit, Pow2, Swapped;
    if limit > 0 {
      PowerBit(m, limit - 1);
      NoExchange(s, m, limit - 1);
    }
  }

  /** With the one control bit `m`, both networks exchange the digits `m` and `m + 1` of the index. */
  lemma OneLevel(v: Bits, m: nat, limit: nat, k: nat, j: nat)
    requires |v| == Pow2(k) && m < limit < k && j < |v|
    ensures Index(Swapped(Digits(j, k), m)) < |v|
    ensures Shuffled(v, Pow2(m), limit)[j] == v[Index(Swapped(Digits(j, k), m))]
    ensures Unshuffled(v, Pow2(m), limit)[j] == v[Index(Swapped(Digits(j, k), m))]
  {
    hide Index, Digits, Unshuffled, Shuffled, Downwards, Upwards, Pow2, Swapped;
    ShuffleMeaning(v, Pow2(m), limit, k, j);
    UnshuffleMeaning(v, Pow2(m), limit, k, j);
    OneExchange(Digits(j, k), m, limit);
  }
}
