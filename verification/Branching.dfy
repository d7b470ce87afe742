/** Where fetch goes on after an instruction, and which predictions the Branch stage finds wrong. */
module Branching {
  import opened Operations
  import opened Pipeline

  /** What the prediction unit tells fetch: nothing is taken without an entry, what is not taken goes
      on behind the instruction, and only jumps have entries that say taken. */
  predicate PredictionOk(i: Instr) {
    && (!i.bp.isHit ==> !i.bp.isTaken)
    && (!i.bp.isTaken ==> i.bp.target == i.pc + 4)
    && (i.bp.isTaken ==> i.op == OutJJump || i.op == OutBranch || i.op == OutBranchLikely || i.op == OutRJump)
  }

  /** Where the program goes on after `i`, as execution leaves it. */
  predicate Resolves(i: Instr, res: Result) {
    match i.op
    case OutJJump => res.newPC == i.decodedTarget
    case OutBranch => res.newPC == if res.takenBranch then i.decodedTarget else i.pc + 4
    case OutBranchLikely => res.newPC == if res.takenBranch then i.decodedTarget else i.pc + 4
    case OutRJump => true
    case _ => res.newPC == i.pc + 4
  }

  /** Where fetch goes on after `i`, unless Branch intervenes: as predicted, or as decode redirects it. */
  function NextFetched(i: Instr): Addr {
    if DecodeMisprediction(i) then i.decodedTarget else i.bp.target
  }

  /** What Branch does not flag was followed by its own successor. */
  lemma UnflaggedIsFollowed(x: Op)
    requires PredictionOk(x.instr) && Resolves(x.instr, x.res)
    requires x.instr.IsJump() ==> !BranchMisprediction(x)
    ensures NextFetched(x.instr) == x.res.newPC
  {
  }

  datatype Guess = NoGuess | Guess(taken: bool, target: Addr)

  /** What the machine goes by until the branch is resolved: the entry of the predictor, or, without
      one, what the operation alone suggests. */
  function GuessOf(i: Instr): Guess {
    if i.bp.isHit then Guess(i.bp.isTaken, i.bp.target)
    else
      match i.op
      case OutJJump => Guess(true, i.decodedTarget)
      case OutBranchLikely => Guess(true, i.decodedTarget)
      case OutBranch => Guess(false, i.pc + 4)
      case _ => NoGuess
  }

  predicate Jumps(x: Op) {
    match x.instr.op
    case OutJJump => true
    case OutRJump => true
    case _ => x.res.takenBranch
  }

  /** Branch flags a jump exactly if the guess about its direction or its target was wrong. */
  lemma FlaggedExactly(x: Op)
    requires PredictionOk(x.instr) && Resolves(x.instr, x.res) && x.instr.IsJump()
    ensures BranchMisprediction(x) <==> GuessOf(x.instr) != Guess(Jumps(x), x.res.newPC)
  {
  }

  /** A flush that was not needed: decode had already sent fetch to the right place, or the branch
      goes to the place behind it anyway. */
  predicate Needless(x: Op)
    requires x.instr.IsJump()
  {
    var i := x.instr;
    if i.op == OutJJump then i.bp.isHit && GuessOf(i) != Guess(true, i.decodedTarget)
    else if i.op == OutRJump then !i.bp.isTaken && i.decodedTarget == x.res.newPC
    else if i.bp.isTaken && i.bp.target != i.decodedTarget then x.res.newPC == i.decodedTarget
    else GuessOf(i).taken != x.res.takenBranch && i.decodedTarget == i.pc + 4
  }

  /** So fetch had gone wrong exactly if Branch flags the jump and the flush was needed. */
  lemma FollowedExactly(x: Op)
    requires PredictionOk(x.instr) && Resolves(x.instr, x.res) && x.instr.IsJump()
    ensures NextFetched(x.instr) != x.res.newPC <==> BranchMisprediction(x) && !Needless(x)
    ensures Needless(x) ==> BranchMisprediction(x)
  {
  }

  /** The redirects of decode that can be the last word: direct jumps and likely branches without an
      entry in the predictor. */
  predicate DecodeDecides(i: Instr) {
    !i.bp.isHit && (i.op == OutJJump || i.op == OutBranchLikely)
  }

  /** All others are flagged in Branch again, whatever execution finds. */
  lemma OthersAreFlagged(x: Op)
    requires PredictionOk(x.instr) && Resolves(x.instr, x.res)
    requires DecodeMisprediction(x.instr) && !DecodeDecides(x.instr)
    ensures x.instr.IsJump() && BranchMisprediction(x)
  {
  }
}
