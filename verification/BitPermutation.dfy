/** The bit-permutation networks: generalized reverse, generalized OR-combine and shuffle, on words of
    any power-of-two width. A word is the sequence of its bits, the lowest first. */
module BitPermutation {
  import opened Powers

  type Bits = seq<bool>

  // ---- Bit operations ----

  function And(a: Bits, b: Bits): (r: Bits)
    requires |a| == |b|
    ensures |r| == |a| && forall j :: 0 <= j < |a| ==> r[j] == (a[j] && b[j])
  {
    seq(|a|, j requires 0 <= j < |a| => a[j] && b[j])
  }

  function Or(a: Bits, b: Bits): (r: Bits)
    requires |a| == |b|
    ensures |r| == |a| && forall j :: 0 <= j < |a| ==> r[j] == (a[j] || b[j])
  {
    seq(|a|, j requires 0 <= j < |a| => a[j] || b[j])
  }

  function Not(a: Bits): (r: Bits)
    ensures |r| == |a| && forall j :: 0 <= j < |a| ==> r[j] == !a[j]
  {
    seq(|a|, j requires 0 <= j < |a| => !a[j])
  }

  function Shl(a: Bits, n: nat): (r: Bits)
    ensures |r| == |a| && forall j :: 0 <= j < |a| ==> r[j] == (j >= n && a[j - n])
  {
    seq(|a|, j requires 0 <= j < |a| => j >= n && a[j - n])
  }

  function Shr(a: Bits, n: nat): (r: Bits)
    ensures |r| == |a| && forall j :: 0 <= j < |a| ==> r[j] == (j + n < |a| && a[j + n])
  {
    seq(|a|, j requires 0 <= j < |a| => j + n < |a| && a[j + n])
  }

  // ---- Masks ----

  function InterleavedMask(width: nat, density: nat): (mask: Bits)
    ensures |mask| == width && forall j :: 0 <= j < width ==> mask[j] == !Bit(j, density)
  {
    seq(width, j requires 0 <= j < width => Shifted(j, density) % 2 == 0)
  }

  function ShuffleMask(width: nat, density: nat, shift: nat): (mask: Bits)
    ensures |mask| == width && forall j :: 0 <= j < width ==> mask[j] == (Shifted(j, density) % 4 == shift)
  {
    seq(width, j requires 0 <= j < width => Shifted(j, density) % 4 == shift)
  }

  method BuildInterleavedMask(width: nat, density: nat) returns (mask: Bits)
    ensures mask == InterleavedMask(width, density)
  {
    mask := seq(width, j => false);
    for i := 0 to width
      invariant |mask| == width
      invariant forall j :: 0 <= j < width ==> mask[j] == (j < i && Shifted(j, density) % 2 == 0)
    {
      if Shifted(i, density) % 2 == 0 {
        mask := mask[i := true];
      }
    }
  }

  method BuildShuffleMask(width: nat, density: nat, shift: nat) returns (mask: Bits)
    ensures mask == ShuffleMask(width, density, shift)
  {
    mask := seq(width, j => false);
    for i := 0 to width
      invariant |mask| == width
      invariant forall j :: 0 <= j < width ==> mask[j] == (j < i && Shifted(j, density) % 4 == shift)
    {
      if Shifted(i, density) % 4 == shift {
        mask := mask[i := true];
      }
    }
  }

  // ---- Stages ----

  /** The two halves of a reversal stage: every bit moved to its partner's place. */
  function Partners(v: Bits, i: nat): (r: Bits)
    ensures |r| == |v|
  {
    var mask := InterleavedMask(|v|, i);
    Or(Shl(And(v, mask), Pow2(i)), Shr(And(v, Not(mask)), Pow2(i)))
  }

  function BitShuffle(v: Bits, level: nat): (r: Bits)
    ensures |r| == |v|
  {
    var maskL, maskR := ShuffleMask(|v|, level, 2), ShuffleMask(|v|, level, 1);
    Or(And(v, Not(Or(maskL, maskR))), Or(And(Shl(v, Pow2(level)), maskL), And(Shr(v, Pow2(level)), maskR)))
  }

  datatype Network = Reverse | Combine

  /** Stage `i` of the reversal or the OR-combine network. */
  function Stage(n: Network, v: Bits, i: nat): (r: Bits)
    ensures |r| == |v|
  {
    match n
    case Reverse => Partners(v, i)
    case Combine => Or(v, Partners(v, i))
  }

  /** The stages below `k` whose bit is set in the control. */
  function Staged(n: Network, v: Bits, control: nat, k: nat): (r: Bits)
    ensures |r| == |v|
  {
    if k == 0 then v else
      var before := Staged(n, v, control, k - 1);
      if Bit(control, k - 1) then Stage(n, before, k - 1) else before
  }

  /** `gen_reverse` on words of 2^k bits. */
  method GenReverse(value: Bits, control: nat, k: nat) returns (r: Bits)
    ensures r == Staged(Reverse, value, control, k)
  {
    r := value;
    for i := 0 to k
      invariant r == Staged(Reverse, value, control, i)
    {
      if Bit(control, i) {
        var mask := BuildInterleavedMask(|r|, i);
        r := Or(Shl(And(r, mask), Pow2(i)), Shr(And(r, Not(mask)), Pow2(i)));
      }
    }
  }

  /** `gen_or_combine` */
  method GenOrCombine(value: Bits, control: nat, k: nat) returns (r: Bits)
    ensures r == Staged(Combine, value, control, k)
  {
    r := value;
    for i := 0 to k
      invariant r == Staged(Combine, value, control, i)
    {
      if Bit(control, i) {
        var mask := BuildInterleavedMask(|r|, i);
        r := Or(r, Or(Shl(And(r, mask), Pow2(i)), Shr(And(r, Not(mask)), Pow2(i))));
      }
    }
  }

  /** Shuffle levels from 0 up to `limit`. */
  function Unshuffled(v: Bits, control: nat, limit: nat): (r: Bits)
    ensures |r| == |v|
  {
    if limit == 0 then v else
      var before := Unshuffled(v, control, limit - 1);
      if Bit(control, limit - 1) then BitShuffle(before, limit - 1) else before
  }

  /** Shuffle levels from `limit` down to 0. */
  function Shuffled(v: Bits, control: nat, limit: nat): (r: Bits)
    ensures |r| == |v|
    decreases limit
  {
    if limit == 0 then v
    else Shuffled(if Bit(control, limit - 1) then BitShuffle(v, limit - 1) else v, control, limit - 1)
  }

  /** `riscv_unshfl` on words of 2^k bits: levels 0 to k - 2. */
  method RiscvUnshfl(value: Bits, control: nat, k: nat) returns (r: Bits)
    requires k > 0
    ensures r == Unshuffled(value, control, k - 1)
  {
    r := value;
    for i := 0 to k - 1
      invariant r == Unshuffled(value, control, i)
    {
      if Bit(control, i) {
        r := BitShuffle(r, i);
      }
    }
  }

  method RiscvShfl(value: Bits, control: nat, k: nat) returns (r: Bits)
    requires k > 0
    ensures r == Shuffled(value, control, k - 1)
  {
    r := value;
    for i := k - 1 downto 0
      invariant |r| == |value| && Shuffled(r, control, i) == Shuffled(value, control, k - 1)
    {
      if Bit(control, i) {
        r := BitShuffle(r, i);
      }
    }
  }

  // ---- Where a stage takes a bit from ----

  /** An index with bit `i` turned. */
  function Flipped(n: nat, i: nat): nat {
    if i == 0 then (if n % 2 == 0 then n + 1 else n - 1) else 2 * Flipped(n / 2, i - 1) + n % 2
  }

  /** An index with the bits `level` and `level + 1` exchanged. */
  function Exchanged(n: nat, level: nat): nat {
    if level == 0 then (if n % 4 == 1 then n + 1 else if n % 4 == 2 then n - 1 else n)
    else 2 * Exchanged(n / 2, level - 1) + n % 2
  }

  lemma {:induction false} FlippedIs(n: nat, i: nat)
    ensures Flipped(n, i) == if Bit(n, i) then n - Pow2(i) else n + Pow2(i)
    ensures Bit(n, i) ==> n >= Pow2(i)
  {
    if i > 0 {
      FlippedIs(n / 2, i - 1);
    }
  }

  lemma {:induction false} FlippedBound(n: nat, i: nat, k: nat)
    requires n < Pow2(k) && i < k
    ensures Flipped(n, i) < Pow2(k)
  {
    if i > 0 {
      FlippedBound(n / 2, i - 1, k - 1);
    }
  }

  lemma {:induction false} FlippedTwice(n: nat, i: nat)
    ensures Flipped(Flipped(n, i), i) == n
  {
    if i > 0 {
      DigitOfFlipped(n, i);
      DigitOfFlipped(Flipped(n, i), i);
      hide Flipped;
      FlippedTwice(n / 2, i - 1);
    }
  }

  lemma {:induction false} FlipsCommute(n: nat, i: nat, j: nat)
    ensures Flipped(Flipped(n, i), j) == Flipped(Flipped(n, j), i)
  {
    if i > 0 && j > 0 {
      FlipsCommute(n / 2, i - 1, j - 1);
      DigitOfFlipped(n, i);
      DigitOfFlipped(n, j);
    } else if i > 0 {
      DigitOfFlipped(n, i);
      assert Flipped(n, 0) / 2 == n / 2;
    } else if j > 0 {
      DigitOfFlipped(n, j);
      assert Flipped(n, 0) / 2 == n / 2;
    }
  }

  lemma DigitOfFlipped(n: nat, i: nat)
    requires i > 0
    ensures Flipped(n, i) / 2 == Flipped(n / 2, i - 1) && Flipped(n, i) % 2 == n % 2
  {
  }

  lemma {:induction false} ExchangedIs(n: nat, level: nat)
    ensures Exchanged(n, level) == if Shifted(n, level) % 4 == 1 then n + Pow2(level)
                                   else if Shifted(n, level) % 4 == 2 then n - Pow2(level) else n
    ensures Shifted(n, level) % 4 == 2 ==> n >= Pow2(level)
  {
    if level > 0 {
      ExchangedIs(n / 2, level - 1);
    }
  }

  lemma {:induction false} ExchangedBound(n: nat, level: nat, k: nat)
    requires n < Pow2(k) && level + 1 < k
    ensures Exchanged(n, level) < Pow2(k)
  {
    if level > 0 {
      ExchangedBound(n / 2, level - 1, k - 1);
    } else {
      assert Pow2(k) == 4 * Pow2(k - 2);
    }
  }

  lemma {:induction false} ExchangedTwice(n: nat, level: nat)
    ensures Exchanged(Exchanged(n, level), level) == n
  {
    if level > 0 {
      var half := Exchanged(n / 2, level - 1);
      ExchangedTwice(n / 2, level - 1);
      ExchangedStep(n, level);
      ExchangedStep(2 * half + n % 2, level);
      hide Exchanged;
      assert (2 * half + n % 2) / 2 == half && (2 * half + n % 2) % 2 == n % 2;
    } else {
      LowExchangedTwice(n);
    }
  }

  lemma ExchangedStep(n: nat, level: nat)
    requires level > 0
    ensures Exchanged(n, level) == 2 * Exchanged(n / 2, level - 1) + n % 2
  {
  }

  lemma LowExchangedTwice(n: nat)
    ensures Exchanged(Exchanged(n, 0), 0) == n
  {
    var high, low := n / 4, n % 4;
    assert n == 4 * high + low;
    LowExchanged(high, low);
    LowExchanged(high, if low == 1 then 2 else if low == 2 then 1 else low);
  }

  lemma LowExchanged(high: nat, low: nat)
    requires low < 4
    ensures Exchanged(4 * high + low, 0) == 4 * high + if low == 1 then 2 else if low == 2 then 1 else low
  {
    assert (4 * high + low) % 4 == low;
  }

  /** A reversal stage brings to place `j` the bit of `j`'s partner. */
  lemma PartnersAt(v: Bits, i: nat, k: nat, j: nat)
    requires |v| == Pow2(k) && i < k && j < |v|
    ensures Flipped(j, i) < |v| && Partners(v, i)[j] == v[Flipped(j, i)]
  {
    hide Flipped, And, Or, Not, Shl, Shr, InterleavedMask, Shifted;
    FlippedBound(j, i, k);
    FlippedIs(j, i);
    AddTurns(j, i);
    if j >= Pow2(i) {
      AddTurns(j - Pow2(i), i);
    }
    var mask := InterleavedMask(|v|, i);
    hide Pow2, Bit;
    if Bit(j, i) {
      assert mask[j - Pow2(i)];
    } else {
      assert j + Pow2(i) < |v| && !mask[j + Pow2(i)];
    }
  }

  lemma {:induction false} AddTurns(n: nat, i: nat)
    ensures Bit(n + Pow2(i), i) == !Bit(n, i)
  {
    if i > 0 {
      AddTurns(n / 2, i - 1);
      assert (n + Pow2(i)) / 2 == n / 2 + Pow2(i - 1);
    }
  }

  lemma {:induction false} ExchangedField(n: nat, level: nat)
    ensures Shifted(n, level) % 4 == 1 ==> Shifted(Exchanged(n, level), level) % 4 == 2
    ensures Shifted(n, level) % 4 == 2 ==> Shifted(Exchanged(n, level), level) % 4 == 1
  {
    if level > 0 {
      ExchangedField(n / 2, level - 1);
    }
  }

  lemma ShuffleAt(v: Bits, level: nat, k: nat, j: nat)
    requires |v| == Pow2(k) && level + 1 < k && j < |v|
    ensures Exchanged(j, level) < |v| && BitShuffle(v, level)[j] == v[Exchanged(j, level)]
  {
    hide Exchanged, And, Or, Not, Shl, Shr, ShuffleMask, Shifted, Pow2;
    ExchangedBound(j, level, k);
    ExchangedIs(j, level);
  }

  // ---- Laws of the stages ----

  lemma PartnersTwice(v: Bits, i: nat, k: nat)
    requires |v| == Pow2(k) && i < k
    ensures Partners(Partners(v, i), i) == v
  {
    hide Partners, Pow2, Flipped;
    forall j | 0 <= j < |v| ensures Partners(Partners(v, i), i)[j] == v[j] {
      PartnersAt(Partners(v, i), i, k, j);
      PartnersAt(v, i, k, Flipped(j, i));
      FlippedTwice(j, i);
    }
  }

  lemma ShuffleTwice(v: Bits, level: nat, k: nat)
    requires |v| == Pow2(k) && level + 1 < k
    ensures BitShuffle(BitShuffle(v, level), level) == v
  {
    hide BitShuffle, Pow2, Exchanged;
    forall j | 0 <= j < |v| ensures BitShuffle(BitShuffle(v, level), level)[j] == v[j] {
      ShuffleAt(BitShuffle(v, level), level, k, j);
      ShuffleAt(v, level, k, Exchanged(j, level));
      ExchangedTwice(j, level);
    }
  }

  lemma CombineTwice(v: Bits, i: nat, k: nat)
    requires |v| == Pow2(k) && i < k
    ensures Stage(Combine, Stage(Combine, v, i), i) == Stage(Combine, v, i)
  {
    hide Partners, Pow2, Flipped, Or;
    var once := Stage(Combine, v, i);
    forall j | 0 <= j < |v| ensures Stage(Combine, once, i)[j] == once[j] {
      PartnersAt(once, i, k, j);
      PartnersAt(v, i, k, j);
      PartnersAt(v, i, k, Flipped(j, i));
      FlippedTwice(j, i);
    }
  }

  lemma StagesCommute(n: Network, v: Bits, i: nat, m: nat, k: nat)
    requires |v| == Pow2(k) && i < k && m < k
    ensures Stage(n, Stage(n, v, i), m) == Stage(n, Stage(n, v, m), i)
  {
    hide Partners, Pow2, Flipped, Or;
    forall j | 0 <= j < |v| ensures Stage(n, Stage(n, v, i), m)[j] == Stage(n, Stage(n, v, m), i)[j] {
      StageAt(n, Stage(n, v, i), m, k, j);
      StageAt(n, v, i, k, j);
      StageAt(n, v, i, k, Flipped(j, m));
      StageAt(n, Stage(n, v, m), i, k, j);
      StageAt(n, v, m, k, j);
      StageAt(n, v, m, k, Flipped(j, i));
      FlipsCommute(j, i, m);
    }
  }

  lemma StageAt(n: Network, v: Bits, i: nat, k: nat, j: nat)
    requires |v| == Pow2(k) && i < k && j < |v|
    ensures Flipped(j, i) < |v|
    ensures Stage(n, v, i)[j] == (v[Flipped(j, i)] || (n.Combine? && v[j]))
  {
    hide Partners, Pow2, Flipped, Or;
    PartnersAt(v, i, k, j);
  }

  // ---- Composition of whole networks ----

  function Xor(a: nat, b: nat): nat
    decreases a + b
  {
    if a == 0 && b == 0 then 0 else 2 * Xor(a / 2, b / 2) + if a % 2 == b % 2 then 0 else 1
  }

  function OrNumber(a: nat, b: nat): nat
    decreases a + b
  {
    if a == 0 && b == 0 then 0 else 2 * OrNumber(a / 2, b / 2) + if a % 2 == 1 || b % 2 == 1 then 1 else 0
  }

  /** How the two networks join their controls. */
  function Joined(n: Network, a: nat, b: nat): nat {
    if n.Reverse? then Xor(a, b) else OrNumber(a, b)
  }

  lemma {:induction false} JoinedBit(n: Network, a: nat, b: nat, i: nat)
    ensures Bit(Joined(n, a, b), i) == if n.Reverse? then Bit(a, i) != Bit(b, i) else Bit(a, i) || Bit(b, i)
    decreases i
  {
    if i > 0 {
      JoinedBit(n, a / 2, b / 2, i - 1);
      assert Joined(n, a, b) / 2 == Joined(n, a / 2, b / 2);
    }
  }

  /** A stage can be moved past the stages below it. */
  lemma {:induction false} StagePasses(n: Network, v: Bits, control: nat, below: nat, m: nat, k: nat)
    requires |v| == Pow2(k) && below <= m < k
    ensures Staged(n, Stage(n, v, m), control, below) == Stage(n, Staged(n, v, control, below), m)
    decreases below
  {
    hide Stage, Pow2, Bit;
    if below > 0 {
      StagePasses(n, v, control, below - 1, m, k);
      StagesCommute(n, Staged(n, v, control, below - 1), below - 1, m, k);
    }
  }

  /** Two runs of a network are one run with the controls joined. */
  lemma {:induction false} RunsCompose(n: Network, v: Bits, a: nat, b: nat, i: nat, k: nat)
    requires |v| == Pow2(k) && i <= k
    ensures Staged(n, Staged(n, v, a, i), b, i) == Staged(n, v, Joined(n, a, b), i)
    decreases i
  {
    hide Pow2, Bit, Joined;
    if i > 0 {
      hide Stage;
      var m := i - 1;
      RunsCompose(n, v, a, b, m, k);
      JoinedBit(n, a, b, m);
      var before := Staged(n, v, a, m);
      if Bit(a, m) {
        StagePasses(n, before, b, m, m, k);
        if Bit(b, m) {
          StageTwice(n, Staged(n, before, b, m), m, k);
        }
      }
    }
  }

  lemma StageTwice(n: Network, v: Bits, i: nat, k: nat)
    requires |v| == Pow2(k) && i < k
    ensures Stage(n, Stage(n, v, i), i) == if n.Reverse? then v else Stage(n, v, i)
  {
    hide Partners, Pow2, Or;
    if n.Reverse? {
      PartnersTwice(v, i, k);
    } else {
      CombineTwice(v, i, k);
    }
  }

  /** grev(grev(x, a), b) == grev(x, a xor b) */
  lemma ReverseComposes(v: Bits, a: nat, b: nat, k: nat)
    requires |v| == Pow2(k)
    ensures Staged(Reverse, Staged(Reverse, v, a, k), b, k) == Staged(Reverse, v, Xor(a, b), k)
  {
    RunsCompose(Reverse, v, a, b, k, k);
  }

  /** gorc(gorc(x, a), b) == gorc(x, a or b) */
  lemma CombineComposes(v: Bits, a: nat, b: nat, k: nat)
    requires |v| == Pow2(k)
    ensures Staged(Combine, Staged(Combine, v, a, k), b, k) == Staged(Combine, v, OrNumber(a, b), k)
  {
    RunsCompose(Combine, v, a, b, k, k);
  }

  // ---- What the networks do to single bits ----

  /** The exclusive or of an index with the low `k` bits of the control, bit by bit. */
  function FlippedBy(j: nat, control: nat, k: nat): nat
    decreases k
  {
    if k == 0 then j else FlippedBy(if Bit(control, k - 1) then Flipped(j, k - 1) else j, control, k - 1)
  }

  lemma {:induction false} FlippedByBound(j: nat, control: nat, i: nat, k: nat)
    requires j < Pow2(k) && i <= k
    ensures FlippedBy(j, control, i) < Pow2(k)
    decreases i
  {
    hide Pow2;
    if i > 0 {
      FlippedBound(j, i - 1, k);
      FlippedByBound(if Bit(control, i - 1) then Flipped(j, i - 1) else j, control, i - 1, k);
    }
  }

  /** Reversal moves the bit at `j` xor control to `j`. */
  lemma {:induction false} ReverseMoves(v: Bits, control: nat, i: nat, k: nat, j: nat)
    requires |v| == Pow2(k) && i <= k && j < |v|
    ensures FlippedBy(j, control, i) < |v|
    ensures Staged(Reverse, v, control, i)[j] == v[FlippedBy(j, control, i)]
    decreases i
  {
    hide Pow2, Bit, Flipped, Partners;
    FlippedByBound(j, control, i, k);
    if i > 0 {
      PartnersAt(Staged(Reverse, v, control, i - 1), i - 1, k, j);
      ReverseMoves(v, control, i - 1, k, if Bit(control, i - 1) then Flipped(j, i - 1) else j);
    }
  }

  lemma {:induction false} FlippedByIsXor(j: nat, control: nat, k: nat)
    requires control < Pow2(k)
    ensures FlippedBy(j, control, k) == Xor(j, control)
  {
    if k == 0 {
      XorZero(j);
    } else {
      FlippedByIsXor(j / 2, control / 2, k - 1);
      FlippedByHalves(j, control, k);
    }
  }

  lemma {:induction false} XorZero(j: nat)
    ensures Xor(j, 0) == j
  {
    if j > 0 {
      XorZero(j / 2);
    }
  }

  /** Flipping by a control flips the lowest bit by its lowest bit and the rest by the rest. */
  lemma {:induction false} FlippedByHalves(j: nat, control: nat, k: nat)
    requires k > 0
    ensures FlippedBy(j, control, k) == 2 * FlippedBy(j / 2, control / 2, k - 1) + if j % 2 == control % 2 then 0 else 1
    decreases k
  {
    if k == 1 {
      assert Bit(control, 0) == (control % 2 == 1);
      assert FlippedBy(j, control, 1) == FlippedBy(if Bit(control, 0) then Flipped(j, 0) else j, control, 0);
    } else {
      var j' := if Bit(control, k - 1) then Flipped(j, k - 1) else j;
      DigitOfFlipped(j, k - 1);
      FlippedByHalves(j', control, k - 1);
      assert Bit(control, k - 1) == Bit(control / 2, k - 2);
    }
  }

  /** grev takes bit j from place `j xor control`. */
  lemma ReverseMeaning(v: Bits, control: nat, k: nat, j: nat)
    requires |v| == Pow2(k) && control < Pow2(k) && j < |v|
    ensures Xor(j, control) < |v| && Staged(Reverse, v, control, k)[j] == v[Xor(j, control)]
  {
    ReverseMoves(v, control, k, k, j);
    FlippedByIsXor(j, control, k);
  }

  /** A control with no bits besides those of another, all below `i`. */
  ghost predicate Within(t: nat, control: nat, i: nat) {
    t < Pow2(i) && forall m: nat :: m < i && Bit(t, m) ==> Bit(control, m)
  }

  lemma {:induction false} HighBitClear(t: nat, i: nat, m: nat)
    requires t < Pow2(i) && i <= m
    ensures !Bit(t, m)
  {
    if m > 0 {
      HighBitClear(t / 2, if i > 0 then i - 1 else 0, m - 1);
    }
  }

  lemma {:induction false} HighBitSet(t: nat, i: nat, m: nat)
    requires t < Pow2(i)
    ensures m < i ==> Bit(t + Pow2(i), m) == Bit(t, m)
    ensures Bit(t + Pow2(i), i)
  {
    if i > 0 {
      HighBitSet(t / 2, i - 1, if m > 0 then m - 1 else 0);
      assert (t + Pow2(i)) / 2 == t / 2 + Pow2(i - 1);
    }
  }

  lemma {:induction false} SameLowBits(j: nat, s: nat, t: nat, i: nat)
    requires forall m: nat :: m < i ==> Bit(s, m) == Bit(t, m)
    ensures FlippedBy(j, s, i) == FlippedBy(j, t, i)
    decreases i
  {
    hide Bit, Flipped;
    if i > 0 {
      SameLowBits(if Bit(s, i - 1) then Flipped(j, i - 1) else j, s, t, i - 1);
    }
  }

  /** The word has a bit at `j xor t` for some part `t` of the control. */
  ghost predicate Collects(v: Bits, control: nat, i: nat, j: nat) {
    exists t: nat :: Within(t, control, i) && BitFrom(v, FlippedBy(j, t, i))
  }

  ghost predicate BitFrom(v: Bits, j: nat) {
    j < |v| && v[j]
  }

  /** gorc sets bit j exactly if the word has a bit at `j xor t` for some part `t` of the control. */
  lemma {:induction false} CombineMeaning(v: Bits, control: nat, i: nat, k: nat, j: nat)
    requires |v| == Pow2(k) && i <= k && j < |v|
    ensures Staged(Combine, v, control, i)[j] <==> Collects(v, control, i, j)
    decreases i
  {
    hide Pow2, Flipped, Stage, Within, Bit;
    if i == 0 {
      assert Within(0, control, 0) by { NoPart(control); }
      assert FlippedBy(j, 0, 0) == j;
    } else {
      var m := i - 1;
      StageAt(Combine, Staged(Combine, v, control, m), m, k, j);
      CombineMeaning(v, control, m, k, j);
      CombineMeaning(v, control, m, k, Flipped(j, m));
      CollectsMore(v, control, m, j);
    }
  }

  lemma NoPart(control: nat)
    ensures Within(0, control, 0)
  {
  }

  lemma CollectsMore(v: Bits, control: nat, m: nat, j: nat)
    ensures Collects(v, control, m + 1, j)
       <==> Collects(v, control, m, j) || (Bit(control, m) && Collects(v, control, m, Flipped(j, m)))
  {
    hide Pow2, Bit, Flipped, FlippedBy, Within, BitFrom;
    forall t: nat | Within(t, control, m) && BitFrom(v, FlippedBy(j, t, m)) ensures Collects(v, control, m + 1, j) {
      ExtendPart(t, control, m, j);
    }
    forall t: nat | Within(t, control, m) && BitFrom(v, FlippedBy(Flipped(j, m), t, m)) && Bit(control, m)
      ensures Collects(v, control, m + 1, j)
    {
      ExtendPart(t, control, m, j);
    }
    var i := m + 1;
    forall t: nat | Within(t, control, i) && BitFrom(v, FlippedBy(j, t, i))
      ensures Collects(v, control, m, j) || (Bit(control, m) && Collects(v, control, m, Flipped(j, m)))
    {
      var low := ShrinkPart(t, control, m, j);
      PartBit(t, control, m);
    }
  }

  lemma PartBit(t: nat, control: nat, m: nat)
    requires Within(t, control, m + 1)
    ensures Bit(t, m) ==> Bit(control, m)
  {
  }

  lemma ExtendPart(t: nat, control: nat, m: nat, j: nat)
    requires Within(t, control, m)
    ensures Within(t, control, m + 1) && FlippedBy(j, t, m + 1) == FlippedBy(j, t, m)
    ensures Bit(control, m) ==> Within(t + Pow2(m), control, m + 1)
    ensures FlippedBy(j, t + Pow2(m), m + 1) == FlippedBy(Flipped(j, m), t, m)
  {
    hide Bit, Flipped;
    HighBitClear(t, m, m);
    forall l: nat | l < m ensures Bit(t + Pow2(m), l) == Bit(t, l) {
      HighBitSet(t, m, l);
    }
    HighBitSet(t, m, m);
    SameLowBits(Flipped(j, m), t + Pow2(m), t, m);
  }

  lemma ShrinkPart(t: nat, control: nat, m: nat, j: nat) returns (low: nat)
    requires Within(t, control, m + 1)
    ensures Within(low, control, m)
    ensures FlippedBy(j, t, m + 1) == FlippedBy(if Bit(t, m) then Flipped(j, m) else j, low, m)
  {
    hide Bit, Flipped;
    low := if t < Pow2(m) then t else t - Pow2(m);
    if t < Pow2(m) {
      HighBitClear(t, m, m);
    } else {
      forall l: nat | l < m ensures Bit(t, l) == Bit(low, l) {
        HighBitSet(low, m, l);
      }
      HighBitSet(low, m, m);
    }
    SameLowBits(if Bit(t, m) then Flipped(j, m) else j, t, low, m);
  }

  // ---- Shuffle and unshuffle ----

  /** Unshuffling undoes shuffling. */
  lemma {:induction false} UnshuffleUndoes(v: Bits, control: nat, limit: nat, k: nat)
    requires |v| == Pow2(k) && limit < k
    ensures Unshuffled(Shuffled(v, control, limit), control, limit) == v
    decreases limit
  {
    hide Pow2, Bit, BitShuffle;
    if limit > 0 {
      var first := if Bit(control, limit - 1) then BitShuffle(v, limit - 1) else v;
      UnshuffleUndoes(first, control, limit - 1, k);
      ShuffleTwice(v, limit - 1, k);
    }
  }

  /** And shuffling undoes unshuffling. */
  lemma {:induction false} ShuffleUndoes(v: Bits, control: nat, limit: nat, k: nat)
    requires |v| == Pow2(k) && limit < k
    ensures Shuffled(Unshuffled(v, control, limit), control, limit) == v
    decreases limit
  {
    hide Pow2, Bit, BitShuffle;
    if limit > 0 {
      ShuffleUndoes(v, control, limit - 1, k);
      ShuffleTwice(Unshuffled(v, control, limit - 1), limit - 1, k);
    }
  }

  /** An index with its bit 0 moved up to bit `limit` and the bits in between moved down. */
  function Rotated(j: nat, limit: nat): nat {
    if limit == 0 then j else 2 * Rotated(j / 4 * 2 + j % 2, limit - 1) + j / 2 % 2
  }

  lemma {:induction false} ExchangeRotates(j: nat, limit: nat)
    ensures Exchanged(Rotated(j, limit), limit) == Rotated(j, limit + 1)
  {
    hide Rotated, Exchanged;
    var inner, d := j / 4 * 2 + j % 2, j / 2 % 2;
    RotatedStep(j, limit + 1);
    if limit > 0 {
      ExchangeRotates(inner, limit - 1);
      RotatedStep(j, limit);
      DigitOfExchanged(Rotated(inner, limit - 1), d, limit);
    } else {
      ExchangeLow(j);
      RotatedNot(j);
      RotatedNot(inner);
    }
  }

  lemma ExchangeLow(j: nat)
    ensures Exchanged(j, 0) == 2 * (j / 4 * 2 + j % 2) + j / 2 % 2
  {
    var high, low := j / 4, j % 4;
    assert j == 4 * high + low;
    assert j % 2 == low % 2 && j / 2 % 2 == low / 2;
  }

  lemma RotatedStep(j: nat, limit: nat)
    requires limit > 0
    ensures Rotated(j, limit) == 2 * Rotated(j / 4 * 2 + j % 2, limit - 1) + j / 2 % 2
  {
  }

  lemma DigitOfExchanged(n: nat, d: nat, level: nat)
    requires level > 0 && d < 2
    ensures Exchanged(2 * n + d, level) == 2 * Exchanged(n, level - 1) + d
  {
    assert (2 * n + d) / 2 == n && (2 * n + d) % 2 == d;
  }

  lemma {:induction false} RotatedIs(j: nat, limit: nat)
    requires j < Pow2(limit + 1)
    ensures Rotated(j, limit) == j / 2 + (if j % 2 == 1 then Pow2(limit) else 0)
  {
    if limit > 0 {
      var inner := j / 4 * 2 + j % 2;
      var p := Pow2(limit - 1);
      assert Pow2(limit) == 2 * p && Pow2(limit + 1) == 4 * p;
      hide Rotated, Pow2;
      InnerDigits(j, inner, p);
      RotatedStep(j, limit);
      RotatedIs(inner, limit - 1);
    }
  }

  lemma InnerDigits(j: nat, inner: nat, p: nat)
    requires inner == j / 4 * 2 + j % 2 && j < 4 * p
    ensures inner < 2 * p && inner % 2 == j % 2
    ensures j / 2 == 2 * (inner / 2) + j / 2 % 2
  {
    var q, r := j / 4, j % 4;
    assert j == 4 * q + r;
    assert j % 2 == r % 2 && j / 2 == 2 * q + r / 2;
  }

  lemma {:induction false} RotatedBound(j: nat, limit: nat, k: nat)
    requires j < Pow2(k) && limit < k
    ensures Rotated(j, limit) < Pow2(k)
    decreases limit
  {
    if limit > 0 {
      RotatedBound(j / 4 * 2 + j % 2, limit - 1, k - 1);
    }
  }

  ghost predicate AllSet(control: nat, limit: nat) {
    forall m: nat :: m < limit ==> Bit(control, m)
  }

  lemma LessSet(control: nat, limit: nat)
    requires AllSet(control, limit) && limit > 0
    ensures AllSet(control, limit - 1) && Bit(control, limit - 1)
  {
  }

  lemma {:induction false} ShuffleMoves(v: Bits, control: nat, limit: nat, k: nat, j: nat)
    requires |v| == Pow2(k) && limit < k && j < |v| && AllSet(control, limit)
    ensures Rotated(j, limit) < |v| && Shuffled(v, control, limit)[j] == v[Rotated(j, limit)]
    decreases limit
  {
    hide Pow2, Bit, BitShuffle, Rotated, Exchanged, AllSet;
    RotatedBound(j, limit, k);
    if limit > 0 {
      LessSet(control, limit);
      ShuffleMoves(BitShuffle(v, limit - 1), control, limit - 1, k, j);
      ShuffleAt(v, limit - 1, k, Rotated(j, limit - 1));
      ExchangeRotates(j, limit - 1);
    } else {
      RotatedNot(j);
    }
  }

  lemma RotatedNot(j: nat)
    ensures Rotated(j, 0) == j
  {
  }

  lemma InterleavedIndex(i: nat, limit: nat)
    requires i < Pow2(limit)
    ensures 2 * i + 1 < Pow2(limit + 1)
    ensures Rotated(2 * i, limit) == i && Rotated(2 * i + 1, limit) == i + Pow2(limit)
  {
    assert Pow2(limit + 1) == 2 * Pow2(limit);
    hide Pow2, Rotated;
    var even, odd := 2 * i, 2 * i + 1;
    assert even / 2 == i && even % 2 == 0 && odd / 2 == i && odd % 2 == 1;
    RotatedIs(even, limit);
    RotatedIs(odd, limit);
  }

  /** With all control bits set, shfl interleaves the two halves of the word. */
  lemma ShuffleInterleaves(v: Bits, control: nat, k: nat, i: nat)
    requires |v| == Pow2(k + 1) && i < Pow2(k) && AllSet(control, k)
    ensures 2 * i + 1 < |v| && i + Pow2(k) < |v|
    ensures Shuffled(v, control, k)[2 * i] == v[i]
    ensures Shuffled(v, control, k)[2 * i + 1] == v[i + Pow2(k)]
  {
    hide Pow2, Rotated, Shuffled, AllSet;
    InterleavedIndex(i, k);
    ShuffleMoves(v, control, k, k + 1, 2 * i);
    ShuffleMoves(v, control, k, k + 1, 2 * i + 1);
  }
}
