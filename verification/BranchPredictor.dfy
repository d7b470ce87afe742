/** The two-level adaptive branch predictor: a table of saturating two-bit states, indexed by the
    pattern of the last outcomes. */
module BranchPredictor {
  import opened Arithmetic
  import opened Powers
  import opened Probing

  datatype State = NT | WNT | WT | T {

    function Updated(taken: bool): State {
      match this
      case NT => if taken then WNT else NT
      case WNT => if taken then WT else NT
      case WT => if taken then T else WNT
      case T => if taken then T else WT
    }

    predicate IsTaken() {
      WT? || T?
    }
  }

  /** `value <<= 1`, masked, with the outcome as the lowest bit. */
  function NextPattern(pattern: nat, depth: nat, taken: bool): (p: nat)
    requires depth > 0
    ensures p < Pow2(depth)
  {
    DoubledLow(pattern, depth);
    LowBits(2 * pattern, depth) + if taken then 1 else 0
  }

  lemma DoubledLow(pattern: nat, depth: nat)
    requires depth > 0
    ensures LowBits(2 * pattern, depth) == 2 * LowBits(pattern, depth - 1)
    ensures LowBits(2 * pattern, depth) + 1 < Pow2(depth)
  {
    assert Pow2(depth) == 2 * Pow2(depth - 1);
    hide Pow2;
    DoubledRemainder(pattern, Pow2(depth - 1));
  }

  lemma DoubledRemainder(n: nat, m: nat)
    requires m > 0
    ensures 2 * n % (2 * m) == 2 * (n % m)
    ensures n % m < m
  {
    var q, r := n / m, n % m;
    assert n == q * m + r;
    Commutes(q, 2 * m);
    Associates(2, m, q);
    Commutes(m, q);
    QuotientRemainder(2 * n, q, 2 * r, 2 * m);
  }

  datatype Predictor = Predictor(table: seq<State>, pattern: nat)

  ghost predicate Shaped(p: Predictor, depth: nat) {
    |p.table| == Pow2(depth) && p.pattern < Pow2(depth)
  }

  function Reset(depth: nat): (p: Predictor)
    ensures Shaped(p, depth)
  {
    Predictor(seq(Pow2(depth), i => WNT), 0)
  }

  predicate Predicts(p: Predictor, depth: nat)
    requires Shaped(p, depth)
  {
    p.table[p.pattern].IsTaken()
  }

  function Updated(p: Predictor, depth: nat, taken: bool): (r: Predictor)
    requires depth > 0 && Shaped(p, depth)
    ensures Shaped(r, depth)
  {
    Predictor(p.table[p.pattern := p.table[p.pattern].Updated(taken)], NextPattern(p.pattern, depth, taken))
  }

  class BPEntryAdaptive {
    const depth: nat
    var stateTable: array<State>
    var pattern: nat

    ghost predicate Valid()
      reads this, stateTable
    {
      depth > 0 && Shaped(View(), depth)
    }

    ghost function View(): Predictor
      reads this, stateTable
    {
      Predictor(stateTable[..], pattern)
    }

    constructor (depth: nat)
      requires depth > 0
      ensures Valid() && fresh(stateTable) && this.depth == depth && View() == Reset(depth)
    {
      this.depth := depth;
      stateTable := new State[Pow2(depth)](_ => WNT);
      pattern := 0;
    }

    method IsTaken() returns (taken: bool)
      requires Valid()
      ensures taken == Predicts(View(), depth)
    {
      taken := stateTable[pattern].IsTaken();
    }

    method Update(taken: bool)
      requires Valid()
      modifies this`pattern, stateTable
      ensures Valid() && View() == Updated(old(View()), depth, taken)
    {
      hide Pow2, NextPattern;
      stateTable[pattern] := stateTable[pattern].Updated(taken);
      pattern := NextPattern(pattern, depth, taken);
    }

    method ResetAll()
      requires Valid()
      modifies this`pattern, stateTable
      ensures Valid() && View() == Reset(depth)
    {
      hide Pow2;
      for i := 0 to stateTable.Length
        invariant forall j :: 0 <= j < i ==> stateTable[j] == WNT
      {
        stateTable[i] := WNT;
      }
      pattern := 0;
    }

    /** Predicts every outcome of a run and then learns it; counts the wrong predictions. */
    method Run(outcomes: seq<bool>) returns (wrong: nat)
      requires Valid() && View() == Reset(depth)
      modifies this`pattern, stateTable
      ensures Valid() && View() == After(depth, outcomes) && wrong == Mispredictions(depth, outcomes)
    {
      hide Shaped, Updated, Predicts, Reset;
      wrong := 0;
      for i := 0 to |outcomes|
        invariant Valid() && View() == After(depth, outcomes[..i]) && wrong == Mispredictions(depth, outcomes[..i])
      {
        assert outcomes[..i + 1][..i] == outcomes[..i];
        var taken := IsTaken();
        if taken != outcomes[i] {
          wrong := wrong + 1;
        }
        Update(outcomes[i]);
      }
      assert outcomes[..|outcomes|] == outcomes;
    }
  }

  // ---- Runs ----

  function After(depth: nat, outcomes: seq<bool>): (p: Predictor)
    requires depth > 0
    ensures Shaped(p, depth)
  {
    if outcomes == [] then Reset(depth)
    else Updated(After(depth, outcomes[..|outcomes| - 1]), depth, outcomes[|outcomes| - 1])
  }

  function Mispredictions(depth: nat, outcomes: seq<bool>): nat
    requires depth > 0
  {
    if outcomes == [] then 0 else
      var n := |outcomes| - 1;
      Mispredictions(depth, outcomes[..n])
      + if Predicts(After(depth, outcomes[..n]), depth) != outcomes[n] then 1 else 0
  }

  /** The history pattern after some outcomes. */
  function Pattern(depth: nat, outcomes: seq<bool>): nat
    requires depth > 0
  {
    After(depth, outcomes).pattern
  }

  /** Bit `i` of the pattern is the outcome `i` steps back, or not-taken before the start. */
  lemma {:induction false} PatternIsHistory(depth: nat, outcomes: seq<bool>, i: nat)
    requires depth > 0 && i < depth
    ensures Bit(Pattern(depth, outcomes), i) == (i < |outcomes| && outcomes[|outcomes| - 1 - i])
    decreases i
  {
    hide Pow2, LowBits;
    if outcomes == [] {
      ZeroBits(i);
    } else {
      var n := |outcomes| - 1;
      var before := Pattern(depth, outcomes[..n]);
      DoubledLow(before, depth);
      assert Pattern(depth, outcomes) / 2 == LowBits(before, depth - 1);
      if i > 0 {
        LowBitKept(before, depth - 1, i - 1);
        PatternIsHistory(depth, outcomes[..n], i - 1);
      }
    }
  }

  lemma {:induction false} ZeroBits(i: nat)
    ensures !Bit(0, i)
  {
    if i > 0 {
      ZeroBits(i - 1);
    }
  }

  lemma {:induction false} LowBitKept(n: nat, width: nat, i: nat)
    requires i < width
    ensures Bit(LowBits(n, width), i) == Bit(n, i)
  {
    LowBitsHalf(n, width);
    hide LowBits;
    if i > 0 {
      LowBitKept(n / 2, width - 1, i - 1);
    }
  }

  lemma LowBitsHalf(n: nat, width: nat)
    requires width > 0
    ensures LowBits(n, width) / 2 == LowBits(n / 2, width - 1) && LowBits(n, width) % 2 == n % 2
  {
    var m := Pow2(width - 1);
    assert Pow2(width) == 2 * m;
    hide Pow2;
    var q, r, b := n / 2 / m, n / 2 % m, n % 2;
    assert n / 2 == q * m + r;
    assert n == q * (2 * m) + (2 * r + b);
    QuotientRemainder(n, q, 2 * r + b, 2 * m);
  }

  // ---- How often the predictor is wrong ----

  /** Every outcome is the same function of the history pattern before it. */
  ghost predicate Patterned(depth: nat, outcomes: seq<bool>, f: nat -> bool)
    requires depth > 0
  {
    forall n :: 0 <= n < |outcomes| ==> outcomes[n] == f(Pattern(depth, outcomes[..n]))
  }

  /** The patterns met so far after which the branch is taken. */
  ghost function TakenAfter(depth: nat, outcomes: seq<bool>): (s: set<nat>)
    requires depth > 0
    ensures forall p :: p in s ==> p < Pow2(depth)
  {
    if outcomes == [] then {} else
      var n := |outcomes| - 1;
      if outcomes[n] then TakenAfter(depth, outcomes[..n]) + {Pattern(depth, outcomes[..n])}
      else TakenAfter(depth, outcomes[..n])
  }

  /** What the table knows: a pattern with taken branches leans to taken once it was met, every other
      pattern leans to not-taken, and is still in the initial state if a taken branch is to come. */
  ghost predicate Learned(p: Predictor, depth: nat, met: set<nat>, f: nat -> bool)
    requires Shaped(p, depth)
  {
    forall i: nat :: i < Pow2(depth) ==>
      if i in met then p.table[i].IsTaken() else !p.table[i].IsTaken() && (f(i) ==> p.table[i] == WNT)
  }

  /** Every pattern costs at most one misprediction: the first taken branch after it. */
  lemma {:induction false} WrongOncePerPattern(depth: nat, outcomes: seq<bool>, f: nat -> bool)
    requires depth > 0 && Patterned(depth, outcomes, f)
    ensures Mispredictions(depth, outcomes) == |TakenAfter(depth, outcomes)|
    ensures Learned(After(depth, outcomes), depth, TakenAfter(depth, outcomes), f)
    ensures forall i :: i in TakenAfter(depth, outcomes) ==> f(i)
    decreases |outcomes|
  {
    hide Pow2, NextPattern, Learned, Updated, Predicts, Shaped;
    if outcomes == [] {
      NothingLearned(depth, f);
    } else {
      var n := |outcomes| - 1;
      assert forall m :: 0 <= m < n ==> outcomes[..n][..m] == outcomes[..m];
      WrongOncePerPattern(depth, outcomes[..n], f);
      var p, met := After(depth, outcomes[..n]), TakenAfter(depth, outcomes[..n]);
      LearnedMore(p, depth, met, f, outcomes[n]);
      assert |met + {p.pattern}| == |met| + if p.pattern in met then 0 else 1 by {
        assert p.pattern in met ==> met + {p.pattern} == met;
      }
    }
  }

  lemma NothingLearned(depth: nat, f: nat -> bool)
    ensures Learned(Reset(depth), depth, {}, f)
  {
  }

  /** A prediction is wrong exactly at the first taken branch after a pattern. */
  lemma LearnedMore(p: Predictor, depth: nat, met: set<nat>, f: nat -> bool, taken: bool)
    requires depth > 0 && Shaped(p, depth) && Learned(p, depth, met, f)
    requires taken == f(p.pattern) && forall i :: i in met ==> f(i)
    ensures Predicts(p, depth) != taken <==> taken && p.pattern !in met
    ensures Learned(Updated(p, depth, taken), depth, if taken then met + {p.pattern} else met, f)
  {
    hide Pow2, NextPattern;
  }

  /** From reset, on any such run of any length, at most 2^depth predictions are wrong. */
  lemma WrongAtMost(depth: nat, outcomes: seq<bool>, f: nat -> bool)
    requires depth > 0 && Patterned(depth, outcomes, f)
    ensures Mispredictions(depth, outcomes) <= Pow2(depth)
  {
    WrongOncePerPattern(depth, outcomes, f);
    SubsetSize(TakenAfter(depth, outcomes), Below(Pow2(depth)));
  }

  // ---- What turns a prediction ----

  /** Which way the table leans for a pattern. */
  predicate Leans(depth: nat, outcomes: seq<bool>, p: nat)
    requires depth > 0 && p < Pow2(depth)
  {
    After(depth, outcomes).table[p].IsTaken()
  }

  /** Was the prediction wrong when the history last was `p`? So it counts before the first time. */
  predicate LastWrong(depth: nat, outcomes: seq<bool>, p: nat)
    requires depth > 0
  {
    outcomes == [] ||
    var n := |outcomes| - 1;
    if Pattern(depth, outcomes[..n]) == p then Predicts(After(depth, outcomes[..n]), depth) != outcomes[n]
    else LastWrong(depth, outcomes[..n], p)
  }

  lemma UpdatedTable(depth: nat, outcomes: seq<bool>, taken: bool)
    requires depth > 0
    ensures var before, after := After(depth, outcomes), After(depth, outcomes + [taken]);
            after.table == before.table[before.pattern := before.table[before.pattern].Updated(taken)]
  {
    hide Pow2, NextPattern;
    assert (outcomes + [taken])[..|outcomes|] == outcomes;
  }

  /** The weak states are those after a wrong prediction. */
  lemma {:induction false} WeakAfterWrong(depth: nat, outcomes: seq<bool>, p: nat)
    requires depth > 0 && p < Pow2(depth)
    ensures var state := After(depth, outcomes).table[p];
            (state == WNT || state == WT) <==> LastWrong(depth, outcomes, p)
  {
    hide Pow2, NextPattern, Updated;
    if outcomes != [] {
      var n := |outcomes| - 1;
      assert outcomes == outcomes[..n] + [outcomes[n]];
      UpdatedTable(depth, outcomes[..n], outcomes[n]);
      WeakAfterWrong(depth, outcomes[..n], p);
    } else {
      StartsWeak(depth, p);
    }
  }

  lemma StartsWeak(depth: nat, p: nat)
    requires p < Pow2(depth)
    ensures Reset(depth).table[p] == WNT
  {
    hide Pow2;
  }

  /** An outcome turns the prediction for its history exactly if it was wrong, and wrong the last time
      too: one contrary outcome after a right prediction does not turn it, two in a row do. The
      predictions for other histories stay. */
  lemma TurnsAfterTwo(depth: nat, outcomes: seq<bool>, taken: bool, p: nat)
    requires depth > 0 && p < Pow2(depth)
    ensures Leans(depth, outcomes + [taken], p) != Leans(depth, outcomes, p)
       <==> p == Pattern(depth, outcomes) && taken != Leans(depth, outcomes, p) && LastWrong(depth, outcomes, p)
  {
    hide Pow2, NextPattern, Updated, After, LastWrong;
    UpdatedTable(depth, outcomes, taken);
    WeakAfterWrong(depth, outcomes, p);
  }
}
