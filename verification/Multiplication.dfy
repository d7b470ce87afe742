/** The high half of a product, from products of half-width pieces in wrapping arithmetic. */
module Multiplication {
  import opened Arithmetic
  import opened Powers

  /** Multiplication and addition of `width`-bit unsigned words. */
  function Mul(x: nat, y: nat, width: nat): (r: nat)
    ensures r < Pow2(width)
  {
    LowBits(x * y, width)
  }

  function Add(x: nat, y: nat, width: nat): (r: nat)
    ensures r < Pow2(width)
  {
    LowBits(x + y, width)
  }

  function Complement(x: nat, width: nat): (r: nat)
    requires x < Pow2(width)
    ensures r < Pow2(width)
  {
    Pow2(width) - 1 - x
  }

  /** The products of half words and the carries between them, every step in a word. */
  function Pieces(x1: nat, x0: nat, y1: nat, y0: nat, half: nat): nat {
    var width := 2 * half;
    var lowPart := ShiftRight(
                     Add(Add(ShiftRight(Mul(x0, y0, width), half), LowBits(Mul(x0, y1, width), half), width),
                         LowBits(Mul(x1, y0, width), half), width), half);
    var highPart := Add(Add(Mul(x1, y1, width), ShiftRight(Mul(x0, y1, width), half), width),
                        ShiftRight(Mul(x1, y0, width), half), width);
    Add(highPart, lowPart, width)
  }

  /** `riscv_multiplication_high_uu` on words of `2 * half` bits. */
  function HighUU(x: nat, y: nat, half: nat): nat {
    Pieces(ShiftRight(x, half), LowBits(x, half), ShiftRight(y, half), LowBits(y, half), half)
  }

  /** `riscv_multiplication_low` */
  function Low(x: nat, y: nat, width: nat): (r: nat)
    ensures r < Pow2(width)
  {
    Mul(x, y, width)
  }

  predicate IsNegative(x: nat, width: nat)
    requires width > 0
  {
    ShiftRight(x, width - 1) != 0
  }

  /** The absolute value of a word taken as two's complement: `~(x - 1)` if it is negative. */
  function Magnitude(x: nat, width: nat): (r: nat)
    requires width > 0 && x < Pow2(width)
    ensures r < Pow2(width)
  {
    if IsNegative(x, width) && x > 0 then Complement(x - 1, width) else x
  }

  /** The high half of the negated product, from the halves of the product. */
  function NegatedHigh(hi: nat, lo: nat, width: nat): (r: nat)
    requires hi < Pow2(width)
    ensures r < Pow2(width)
  {
    if lo == 0 then Add(Complement(hi, width), 1, width) else Complement(hi, width)
  }

  function HighSS(x: nat, y: nat, half: nat): nat
    requires half > 0 && x < Pow2(2 * half) && y < Pow2(2 * half)
  {
    var width := 2 * half;
    var xAbs, yAbs := Magnitude(x, width), Magnitude(y, width);
    HighUUBound(xAbs, yAbs, half);
    var hi, lo := HighUU(xAbs, yAbs, half), Low(xAbs, yAbs, width);
    if IsNegative(x, width) != IsNegative(y, width) then NegatedHigh(hi, lo, width) else hi
  }

  function HighSU(x: nat, y: nat, half: nat): nat
    requires half > 0 && x < Pow2(2 * half) && y < Pow2(2 * half)
  {
    var width := 2 * half;
    var xAbs := Magnitude(x, width);
    HighUUBound(xAbs, y, half);
    var hi, lo := HighUU(xAbs, y, half), Low(xAbs, y, width);
    if IsNegative(x, width) then NegatedHigh(hi, lo, width) else hi
  }

  lemma HighUUBound(x: nat, y: nat, half: nat)
    ensures HighUU(x, y, half) < Pow2(2 * half)
  {
    hide LowBits, ShiftRight, Mul;
  }

  // ---- Unsigned ----

  /** The pieces of the product, with `b` the value of a half word: their sum, shifted, is the quotient. */
  lemma ProductPieces(x1: nat, x0: nat, y1: nat, y0: nat, b: nat)
    requires b > 0
    ensures (x1 * b + x0) * (y1 * b + y0) == x1 * y1 * (b * b) + (x0 * y1 + x1 * y0) * b + x0 * y0
  {
    var x := x1 * b + x0;
    Distributes(x1 * b, x0, y1 * b + y0);
    assert (x1 * b) * (y1 * b + y0) == (x1 * b) * (y1 * b) + (x1 * b) * y0;
    assert (x1 * b) * (y1 * b) == x1 * y1 * (b * b) by {
      Associates(x1, b, y1 * b);
      Associates(b, y1, b);
      Commutes(b, y1);
      Associates(y1, b, b);
      Associates(x1, y1, b * b);
    }
    assert (x1 * b) * y0 == x1 * y0 * b by {
      Associates(x1, b, y0);
      Commutes(b, y0);
      Associates(x1, y0, b);
    }
    assert x0 * (y1 * b + y0) == x0 * (y1 * b) + x0 * y0;
    Associates(x0, y1, b);
    Distributes(x0 * y1, x1 * y0, b);
  }

  /** A sum of three numbers, each split at `b`, with the carry out of the low parts. */
  lemma CarriedSum(p1: nat, p0: nat, q1: nat, q0: nat, r1: nat, r0: nat, s1: nat, s0: nat, b: nat)
    requires b > 0 && s0 < b && r0 < b && r1 + p0 + q0 == s1 * b + s0
    ensures (p1 * b + p0) * b + (q1 * b + q0) * b + (r1 * b + r0) == (p1 + q1 + s1) * (b * b) + (s0 * b + r0)
    ensures 0 <= s0 * b + r0 < b * b
  {
    var x, y := p1 * b + p0, q1 * b + q0;
    HighDigits(p1, p0, q1, q0, r1, s1, s0, b);
    ThreeTimes(x, y, r1, b);
    TwoDigits((x + y + r1) * b + r0, p1 + q1 + s1, s0, r0, b, b);
  }

  lemma HighDigits(p1: nat, p0: nat, q1: nat, q0: nat, r1: nat, s1: nat, s0: nat, b: nat)
    requires r1 + p0 + q0 == s1 * b + s0
    ensures (p1 * b + p0) + (q1 * b + q0) + r1 == (p1 + q1 + s1) * b + s0
  {
    ThreeTimes(p1, q1, s1, b);
  }

  lemma ThreeTimes(x: nat, y: nat, z: nat, b: nat)
    ensures x * b + y * b + z * b == (x + y + z) * b
  {
    Distributes(x, y, b);
    Distributes(x + y, z, b);
  }

  lemma CarriedQuotient(p: nat, q: nat, r: nat, b: nat)
    requires b > 0
    ensures (p * b + q * b + r) / (b * b) == p / b + q / b + (r / b + p % b + q % b) / b
  {
    var p1, p0 := Digits(p, b);
    var q1, q0 := Digits(q, b);
    var r1, r0 := Digits(r, b);
    var s1, s0 := Digits(r1 + p0 + q0, b);
    CarriedSum(p1, p0, q1, q0, r1, r0, s1, s0, b);
    QuotientRemainder(p * b + q * b + r, p1 + q1 + s1, s0 * b + r0, b * b);
  }

  lemma Digits(p: nat, b: nat) returns (high: nat, low: nat)
    requires b > 0
    ensures high == p / b && low == p % b
    ensures p == high * b + low && low < b
  {
    high, low := p / b, p % b;
    assert p == high * b + low;
  }

  lemma AddMultiple(h: nat, x: nat, m: nat)
    requires m > 0
    ensures (h * m + x) / m == h + x / m
  {
    var q, r := x / m, x % m;
    assert x == q * m + r;
    Distributes(h, q, m);
    QuotientRemainder(h * m + x, h + q, r, m);
  }

  lemma MulMonotonic(x: nat, y: nat, z: nat)
    requires x <= y
    ensures x * z <= y * z
  {
    Distributes(x, y - x, z);
    assert (y - x) * z >= 0;
  }

  /** Half-width factors do not overflow a word. */
  lemma HalfProduct(x: nat, y: nat, b: nat)
    requires x < b && y < b
    ensures x * y < b * b && x * y <= (b - 1) * (b - 1)
  {
    MulMonotonic(x, b - 1, y);
    MulMonotonic(y, b - 1, b - 1);
    Commutes(b - 1, y);
    Distributes(b, -1, b - 1);
    Commutes(b, b - 1);
    Distributes(b, -1, b);
  }

  /** The sum of the low pieces fits into a word. */
  lemma LowPiecesFit(u: nat, v: nat, w: nat, b: nat)
    requires b >= 2 && u <= b - 2 && v < b && w < b
    ensures u + v + w < b * b
  {
    if b == 2 {
    } else if b == 3 {
    } else {
      assert b * b >= 4 * b;
    }
  }

  lemma HighOfSmall(x: nat, y: nat, b: nat)
    requires x < b && y < b && b > 0
    ensures b >= 2 ==> x * y / b <= b - 2
    ensures x * y / b < b
  {
    HalfProduct(x, y, b);
    var q := x * y / b;
    assert x * y == q * b + x * y % b;
    assert (b - 1) * (b - 1) == (b - 2) * b + 1;
    if q > b - 2 {
      MultiplesApart(b - 2, q, b);
    }
  }

  lemma HalfSquared(half: nat)
    ensures Pow2(2 * half) == Pow2(half) * Pow2(half)
  {
    hide Pow2;
    assert 2 * half == half + half;
    Pow2Adds(half, half);
  }

  /** The algorithm without any wrapping. */
  function ExactHigh(x1: nat, x0: nat, y1: nat, y0: nat, half: nat): nat {
    x1 * y1 + ShiftRight(x0 * y1, half) + ShiftRight(x1 * y0, half)
    + ShiftRight(ShiftRight(x0 * y0, half) + LowBits(x0 * y1, half) + LowBits(x1 * y0, half), half)
  }

  lemma ExactIsHigh(x1: nat, x0: nat, y1: nat, y0: nat, half: nat)
    ensures ExactHigh(x1, x0, y1, y0, half)
         == (x1 * Pow2(half) + x0) * (y1 * Pow2(half) + y0) / (Pow2(half) * Pow2(half))
  {
    hide Pow2;
    var p, q, r, b := x0 * y1, x1 * y0, x0 * y0, Pow2(half);
    ProductPieces(x1, x0, y1, y0, b);
    Distributes(p, q, b);
    CarriedQuotient(p, q, r, b);
    AddMultiple(x1 * y1, p * b + q * b + r, b * b);
  }

  lemma WordHalves(x: nat, half: nat)
    requires x < Pow2(2 * half)
    ensures x == ShiftRight(x, half) * Pow2(half) + LowBits(x, half)
    ensures ShiftRight(x, half) < Pow2(half)
  {
    hide Pow2;
    HalfSquared(half);
    var b := Pow2(half);
    var q := x / b;
    assert x == q * b + x % b;
    if q >= b {
      MulMonotonic(b, q, b);
    }
  }

  lemma LowBitsSmall(x: nat, width: nat)
    requires x < Pow2(width)
    ensures LowBits(x, width) == x
  {
    hide Pow2;
    QuotientRemainder(x, 0, x, Pow2(width));
  }

  lemma MulSmall(x: nat, y: nat, half: nat)
    requires x < Pow2(half) && y < Pow2(half)
    ensures Mul(x, y, 2 * half) == x * y
  {
    hide Pow2, LowBits;
    HalfSquared(half);
    HalfProduct(x, y, Pow2(half));
    LowBitsSmall(x * y, 2 * half);
  }

  lemma AddSmall(x: nat, y: nat, width: nat)
    requires x + y < Pow2(width)
    ensures Add(x, y, width) == x + y
  {
    hide Pow2, LowBits;
    LowBitsSmall(x + y, width);
  }

  /** Additions whose sums fit into a word do not wrap. */
  lemma SumsFit(a: nat, b: nat, c: nat, d: nat, width: nat)
    requires a + b + c + d < Pow2(width)
    ensures Add(Add(a, b, width), c, width) == a + b + c
    ensures Add(a + b + c, d, width) == a + b + c + d
  {
    hide Pow2, Add;
    AddSmall(a, b, width);
    AddSmall(a + b, c, width);
    AddSmall(a + b + c, d, width);
  }

  /** The low pieces of the algorithm fit into a word. */
  lemma LowPieces(x1: nat, x0: nat, y1: nat, y0: nat, half: nat)
    requires half > 0 && x1 < Pow2(half) && x0 < Pow2(half) && y1 < Pow2(half) && y0 < Pow2(half)
    ensures ShiftRight(x0 * y0, half) + LowBits(x0 * y1, half) + LowBits(x1 * y0, half) < Pow2(2 * half)
  {
    hide *;
    AtLeastTwo(half);
    ShiftedProduct(x0, y0, half);
    LowSum(ShiftRight(x0 * y0, half), LowBits(x0 * y1, half), LowBits(x1 * y0, half), half);
  }

  lemma LowSum(u: nat, v: nat, w: nat, half: nat)
    requires Pow2(half) >= 2 && u <= Pow2(half) - 2 && v < Pow2(half) && w < Pow2(half)
    ensures u + v + w < Pow2(2 * half)
  {
    hide *;
    HalfSquared(half);
    LowPiecesFit(u, v, w, Pow2(half));
  }

  lemma AtLeastTwo(half: nat)
    requires half > 0
    ensures Pow2(half) >= 2
  {
  }

  lemma ShiftedProduct(x: nat, y: nat, half: nat)
    requires x < Pow2(half) && y < Pow2(half) && Pow2(half) >= 2
    ensures ShiftRight(x * y, half) <= Pow2(half) - 2
  {
    hide Pow2;
    HighOfSmall(x, y, Pow2(half));
  }

  /** Every product and every sum of the algorithm, in the order it is made, fits into a word. */
  ghost predicate StepsFit(x1: nat, x0: nat, y1: nat, y0: nat, half: nat) {
    var word := Pow2(2 * half);
    var u, v, w := ShiftRight(x0 * y0, half), LowBits(x0 * y1, half), LowBits(x1 * y0, half);
    var a, b, c := x1 * y1, ShiftRight(x0 * y1, half), ShiftRight(x1 * y0, half);
    && x0 * y0 < word && x0 * y1 < word && x1 * y0 < word && x1 * y1 < word
    && u + v < word && u + v + w < word
    && a + b < word && a + b + c < word && a + b + c + ShiftRight(u + v + w, half) < word
  }

  lemma AllStepsFit(x1: nat, x0: nat, y1: nat, y0: nat, half: nat)
    requires half > 0 && x1 < Pow2(half) && x0 < Pow2(half) && y1 < Pow2(half) && y0 < Pow2(half)
    requires ExactHigh(x1, x0, y1, y0, half) < Pow2(2 * half)
    ensures StepsFit(x1, x0, y1, y0, half)
  {
    hide Pow2, LowBits, ShiftRight;
    var b := Pow2(half);
    HalfSquared(half);
    HalfProduct(x0, y0, b);
    HalfProduct(x0, y1, b);
    HalfProduct(x1, y0, b);
    HalfProduct(x1, y1, b);
    LowPieces(x1, x0, y1, y0, half);
  }

  /** No step of the algorithm wraps around, for any width. */
  lemma NoOverflow(x: nat, y: nat, half: nat)
    requires half > 0 && x < Pow2(2 * half) && y < Pow2(2 * half)
    ensures StepsFit(ShiftRight(x, half), LowBits(x, half), ShiftRight(y, half), LowBits(y, half), half)
    ensures HighUU(x, y, half)
         == ExactHigh(ShiftRight(x, half), LowBits(x, half), ShiftRight(y, half), LowBits(y, half), half)
  {
    hide Pow2, LowBits, ShiftRight, Pieces, ExactHigh, StepsFit;
    WordHalves(x, half);
    WordHalves(y, half);
    ExactFits(x, y, half);
    AllStepsFit(ShiftRight(x, half), LowBits(x, half), ShiftRight(y, half), LowBits(y, half), half);
    PiecesDoNotWrap(ShiftRight(x, half), LowBits(x, half), ShiftRight(y, half), LowBits(y, half), half);
  }

  lemma PiecesDoNotWrap(x1: nat, x0: nat, y1: nat, y0: nat, half: nat)
    requires half > 0 && x1 < Pow2(half) && x0 < Pow2(half) && y1 < Pow2(half) && y0 < Pow2(half)
    requires ExactHigh(x1, x0, y1, y0, half) < Pow2(2 * half)
    ensures Pieces(x1, x0, y1, y0, half) == ExactHigh(x1, x0, y1, y0, half)
  {
    hide Pow2, LowBits, ShiftRight, Mul, Add;
    var width := 2 * half;
    MulSmall(x0, y0, half);
    MulSmall(x0, y1, half);
    MulSmall(x1, y0, half);
    MulSmall(x1, y1, half);
    LowPieces(x1, x0, y1, y0, half);
    var u, v, w := ShiftRight(x0 * y0, half), LowBits(x0 * y1, half), LowBits(x1 * y0, half);
    SumsFit(u, v, w, 0, width);
    SumsFit(x1 * y1, ShiftRight(x0 * y1, half), ShiftRight(x1 * y0, half), ShiftRight(u + v + w, half), width);
  }

  lemma ExactFits(x: nat, y: nat, half: nat)
    requires x < Pow2(2 * half) && y < Pow2(2 * half)
    ensures ExactHigh(ShiftRight(x, half), LowBits(x, half), ShiftRight(y, half), LowBits(y, half), half)
          < Pow2(2 * half)
    ensures ExactHigh(ShiftRight(x, half), LowBits(x, half), ShiftRight(y, half), LowBits(y, half), half)
         == x * y / Pow2(2 * half)
  {
    hide Pow2, LowBits, ShiftRight, ExactHigh;
    HalfSquared(half);
    WordHalves(x, half);
    WordHalves(y, half);
    ExactIsHigh(ShiftRight(x, half), LowBits(x, half), ShiftRight(y, half), LowBits(y, half), half);
    HighOfSmall(x, y, Pow2(2 * half));
  }

  /** The half-word algorithm returns the high half of the unsigned product. */
  lemma HighUUIsHigh(x: nat, y: nat, half: nat)
    requires half > 0 && x < Pow2(2 * half) && y < Pow2(2 * half)
    ensures HighUU(x, y, half) == x * y / Pow2(2 * half)
  {
    hide *;
    NoOverflow(x, y, half);
    ExactFits(x, y, half);
  }

  // ---- Signed ----

  /** A word as a two's complement number. */
  function Signed(x: nat, width: nat): int
    requires width > 0
  {
    if x >= Pow2(width - 1) then x - Pow2(width) else x
  }

  lemma SignBit(x: nat, width: nat)
    requires width > 0 && x < Pow2(width)
    ensures IsNegative(x, width) <==> Signed(x, width) < 0
    ensures IsNegative(x, width) ==> x > 0 && Magnitude(x, width) == -Signed(x, width)
    ensures !IsNegative(x, width) ==> Magnitude(x, width) == Signed(x, width) == x
  {
    var p := Pow2(width - 1);
    assert Pow2(width) == 2 * p;
    hide Pow2, ShiftRight;
    if x < p {
      assert ShiftRight(x, width - 1) == 0 by { ShiftedIs(x, width - 1, 0, x); }
    } else {
      assert ShiftRight(x, width - 1) == 1 by { ShiftedIs(x, width - 1, 1, x - p); }
    }
  }

  lemma ShiftedIs(x: nat, bits: nat, q: nat, r: nat)
    requires x == q * Pow2(bits) + r && r < Pow2(bits)
    ensures ShiftRight(x, bits) == q
  {
    hide Pow2;
    QuotientRemainder(x, q, r, Pow2(bits));
  }

  /** The high half of a negative product. */
  lemma NegatedIsHigh(product: int, hi: int, lo: int, width: nat)
    requires product == hi * Pow2(width) + lo && 0 <= lo < Pow2(width) && 0 <= hi < Pow2(width)
    ensures NegatedHigh(hi, lo, width) == (-product) / Pow2(width) % Pow2(width)
  {
    hide Pow2, LowBits;
    var m := Pow2(width);
    if lo == 0 {
      Distributes(hi, -hi, m);
      QuotientRemainder(-product, -hi, 0, m);
      NegatedWraps(hi, m);
      assert Complement(hi, width) + 1 == m - hi;
      assert Add(Complement(hi, width), 1, width) == (m - hi) % m by { LowBitsIs(m - hi, width); }
    } else {
      Distributes(hi + 1, -hi - 1, m);
      Distributes(hi, 1, m);
      QuotientRemainder(-product, -hi - 1, m - lo, m);
      QuotientRemainder(-hi - 1, -1, m - 1 - hi, m);
    }
  }

  lemma LowBitsIs(x: nat, width: nat)
    ensures LowBits(x, width) == x % Pow2(width)
  {
  }

  lemma NegatedWraps(hi: int, m: int)
    requires 0 <= hi < m
    ensures (m - hi) % m == (-hi) % m
  {
    SameResidue(-hi, m - hi, 1, m);
  }

  /** The high and the low half of a product of magnitudes. */
  lemma Halves(x: nat, y: nat, half: nat)
    requires half > 0 && x < Pow2(2 * half) && y < Pow2(2 * half)
    ensures x * y == HighUU(x, y, half) * Pow2(2 * half) + Low(x, y, 2 * half)
    ensures HighUU(x, y, half) < Pow2(2 * half)
    ensures HighUU(x, y, half) == x * y / Pow2(2 * half) % Pow2(2 * half)
  {
    hide Pow2, HighUU;
    var m := Pow2(2 * half);
    HighUUIsHigh(x, y, half);
    HighOfSmall(x, y, m);
    LowBitsIs(x * y, 2 * half);
    assert x * y == x * y / m * m + x * y % m;
    QuotientRemainder(x * y / m, 0, x * y / m, m);
  }

  lemma SignsOfProduct(x: int, y: int)
    ensures (-x) * y == -(x * y) && x * (-y) == -(x * y) && (-x) * (-y) == x * y
  {
    Distributes(x, -x, y);
    Distributes(y, -y, x);
    Distributes(y, -y, -x);
    Commutes(x, y);
    Commutes(x, -y);
    Commutes(-x, y);
    Commutes(-x, -y);
  }

  /** MULH: the high half of the product of two signed words. */
  lemma HighSSIsHigh(x: nat, y: nat, half: nat)
    requires half > 0 && x < Pow2(2 * half) && y < Pow2(2 * half)
    ensures HighSS(x, y, half) == Signed(x, 2 * half) * Signed(y, 2 * half) / Pow2(2 * half) % Pow2(2 * half)
  {
    hide Pow2, HighUU, IsNegative, Magnitude, Signed, NegatedHigh, Low;
    var width := 2 * half;
    SignBit(x, width);
    SignBit(y, width);
    var xAbs: int, yAbs: int := Magnitude(x, width), Magnitude(y, width);
    Halves(xAbs, yAbs, half);
    SignsOfProduct(xAbs, yAbs);
    NegatedIsHigh(xAbs * yAbs, HighUU(xAbs, yAbs, half), Low(xAbs, yAbs, width), width);
    var product := Signed(x, width) * Signed(y, width);
    assert product == if IsNegative(x, width) != IsNegative(y, width) then -(xAbs * yAbs) else xAbs * yAbs;
  }

  /** MULHSU: the high half of the product of a signed and an unsigned word. */
  lemma HighSUIsHigh(x: nat, y: nat, half: nat)
    requires half > 0 && x < Pow2(2 * half) && y < Pow2(2 * half)
    ensures HighSU(x, y, half) == Signed(x, 2 * half) * y / Pow2(2 * half) % Pow2(2 * half)
  {
    hide Pow2, HighUU, IsNegative, Magnitude, Signed, NegatedHigh, Low;
    var width := 2 * half;
    SignBit(x, width);
    var xAbs: int := Magnitude(x, width);
    Halves(xAbs, y, half);
    SignsOfProduct(xAbs, y);
    NegatedIsHigh(xAbs * y, HighUU(xAbs, y, half), Low(xAbs, y, width), width);
    assert Signed(x, width) * y == if IsNegative(x, width) then -(xAbs * y) else xAbs * y;
  }
}
