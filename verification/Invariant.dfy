/** What every reachable state of the pipeline satisfies, stated against its history `h`. Where the
    instructions are and when they get there does not depend on values: that part speaks of `w`, what
    the run computes. The other part says that the survivors compute what the sequential run from the
    architectural state `a` computes. */
module Invariant {
  import opened Operations
  import opened Options
  import opened FuncSim
  import opened Scoreboard
  import opened Pipeline
  import opened Timeline

  /** The instruction issued at `t` survives and is of the class that takes the given path. */

  predicate LongAt(h: History, t: int) { Alive(h, t) && h[t].value.IsLongArithmetic() }

  predicate BranchAt(h: History, t: int) { Alive(h, t) && h[t].value.IsJump() }

  predicate MemAt(h: History, t: int) { Alive(h, t) && h[t].value.IsMemStageRequired() }

  predicate ShortAt(h: History, t: int) {
    Alive(h, t) && !LongAt(h, t) && !BranchAt(h, t) && !MemAt(h, t)
  }

  // Flow

  /** Write-back cycles strictly increase in issue order. */
  ghost predicate InOrder(h: History, l: LongLatency) {
    forall t, u :: t < u && Alive(h, t) && Alive(h, u) ==> WritebackCycle(h, t, l) < WritebackCycle(h, u, l)
  }

  ghost predicate RecordOk(s: Core, h: History) {
    && s.Shaped()
    && h == Surviving(s)
    && (forall f :: f in s.misses ==> f < s.cycle)
    && InOrder(h, s.longLatency)
  }

  /** The counter bounds every write-back still to come, although it only follows the last issue. */
  ghost predicate LatencyOk(s: Core, h: History) {
    forall t :: t < s.cycle - 1 && Alive(h, t) ==>
      WritebackCycle(h, t, s.longLatency) <= s.cycle - 1 + s.bypass.operationLatency
  }

  /** While a flush is under way nothing that survives is further back than write-back. */
  ghost predicate FlushOk(s: Core, h: History) {
    s.flushAll ==> forall t :: Alive(h, t) ==> t <= s.cycle - 3 && WritebackCycle(h, t, s.longLatency) <= s.cycle
  }

  ghost predicate UntracedOk(s: Core) {
    forall r: Register :: !s.bypass.scoreboard[r].isTraced ==> s.bypass.scoreboard[r] == UNTRACED
  }

  /** What decode sent on is the last issue. */
  ghost predicate IssueOk(s: Core, h: History, w: Work) {
    && s.notify == Slot(h, s.cycle - 1)
    && (s.toExecute.Some? <==> Alive(h, s.cycle - 1))
    && (s.toExecute.Some? ==> ExecutedOp(s, s.toExecute.value) == Made(w, h, s.cycle - 1))
  }

  /** The ports behind execute that a flush empties. */
  ghost predicate ExecutedOk(s: Core, h: History, w: Work) {
    && s.toMem == (if MemAt(h, s.cycle - 2) then Some(Made(w, h, s.cycle - 2)) else None)
    && s.toBranch == (if BranchAt(h, s.cycle - 2) then Some(Made(w, h, s.cycle - 2)) else None)
  }

  /** Item k of the long unit is live when the flush counter will have run out by its turn; live
      items are exactly the surviving long instructions of that age. */
  ghost predicate LongUnitOk(s: Core, h: History, w: Work) {
    s.Shaped() && forall k :: 0 <= k < s.longLatency - 1 ==> LongItemOk(s, h, w, k)
  }

  ghost predicate LongItemOk(s: Core, h: History, w: Work, k: int)
    requires s.Shaped() && 0 <= k < s.longLatency - 1
  {
    var t := s.cycle + k - s.longLatency;
    (if s.flushExpiration <= k + 1 then s.longUnit[k] else None)
    == (if LongAt(h, t) then Some(Made(w, h, t)) else None)
  }

  /** The long, and the short, instruction issued at `t`, if there is one. */

  function LongOps(h: History, w: Work, t: int): seq<Op> {
    if LongAt(h, t) then [Made(w, h, t)] else []
  }

  function ShortOps(h: History, w: Work, t: int): seq<Op> {
    if ShortAt(h, t) then [Made(w, h, t)] else []
  }

  /** The three inputs of write-back. */
  ghost predicate WritebackInputsOk(s: Core, h: History, w: Work) {
    && s.fromExecute == LongOps(h, w, s.cycle - 1 - s.longLatency) + ShortOps(h, w, s.cycle - 2)
    && s.fromMem == (if MemAt(h, s.cycle - 3) then Some(Finished(w, h, s.cycle - 3)) else None)
    && s.fromBranch == (if BranchAt(h, s.cycle - 3) then Some(Made(w, h, s.cycle - 3)) else None)
  }

  /** One past the issue cycle of the last instruction written back. */
  function Committed(s: Core): nat {
    if s.retired == [] then 0 else s.retired[|s.retired| - 1].op.born + 1
  }

  function RetiredAt(w: Work, h: History, t: int, l: LongLatency): seq<Retirement> {
    if Alive(h, t) then [Retirement(Finished(w, h, t), WritebackCycle(h, t, l))] else []
  }

  /** The write-backs of the survivors issued before `n`. */
  function RetiredUpto(w: Work, h: History, n: int, l: LongLatency): seq<Retirement>
    decreases n
  {
    if n <= 0 then [] else RetiredUpto(w, h, n - 1, l) + RetiredAt(w, h, n - 1, l)
  }

  /** The memory accesses of the survivors issued before `n`. */
  function AccessedUpto(w: Work, h: History, n: int): seq<Op>
    decreases n
  {
    if n <= 0 then []
    else AccessedUpto(w, h, n - 1) + (if MemAt(h, n - 1) then [Finished(w, h, n - 1)] else [])
  }

  /** The write-backs are those of the instructions due by now. */
  ghost predicate CommitOk(s: Core, h: History, w: Work) {
    CommittedIs(Committed(s), s.cycle, s.retired, h, w, s.longLatency)
  }

  ghost predicate CommittedIs(n: nat, c: nat, retired: seq<Retirement>, h: History, w: Work, l: LongLatency) {
    && n <= c
    && (n == 0 || Alive(h, n - 1))
    && (forall t :: Alive(h, t) ==> (t < n <==> WritebackCycle(h, t, l) < c))
    && retired == RetiredUpto(w, h, n, l)
  }

  /** Memory was accessed by the instructions that have had time to go through the memory stage. */
  ghost predicate AccessOk(s: Core, h: History, w: Work) {
    s.accessed == AccessedUpto(w, h, s.cycle - 2)
  }

  /** What holds in every cycle, flush or not. */
  ghost predicate FlowAlways(s: Core, h: History, w: Work) {
    && RecordOk(s, h)
    && LatencyOk(s, h)
    && FlushOk(s, h)
    && UntracedOk(s)
    && s.flushExpiration <= s.longLatency - 1
    && WritebackInputsOk(s, h, w)
    && CommitOk(s, h, w)
    && AccessOk(s, h, w)
  }

  /** What holds unless a flush is about to empty the front of the pipeline. */
  ghost predicate FlowFront(s: Core, h: History, w: Work) {
    s.Shaped() && IssueOk(s, h, w) && ExecutedOk(s, h, w) && LongUnitOk(s, h, w)
  }

  /** The invariant of every run, safe or not. */
  ghost predicate FlowAt(s: Core, h: History, w: Work) {
    FlowAlways(s, h, w) && (!s.flushAll ==> FlowFront(s, h, w))
  }

  /** `w` is right about what is in execute and in the memory stage. */
  ghost predicate Works(s: Core, w: Work) {
    && (s.toExecute.Some? ==> w.executed(s.cycle - 1) == ExecutedOp(s, s.toExecute.value))
    && (s.toMem.Some? ==> w.accessed(s.cycle - 2) == Accessed(s.isa, s.toMem.value, s.mem))
  }

  // The scoreboard

  /** The scoreboard, once updated for this cycle, tracks all but the last issue. */
  ghost predicate ScoreboardOk(s: Core, h: History) {
    forall r: Register ::
      EntryTracks(UpdatedEntry(s.bypass.scoreboard[r], s.longLatency), h, s.cycle - 1, r, s.cycle, s.longLatency)
  }

  /** The first assumption about a run: no register is traced as a second destination while its
      entry is marked bypassible. */
  ghost predicate SecondDestinationSafe(s: Core) {
    !s.flushAll && s.notify.Some? && s.notify.value.dst1 != ZERO ==>
      var i := s.notify.value;
      var b := Updated(s.bypass, s.longLatency);
      !TracedFirstDst(b.scoreboard, i, s.longLatency)[i.dst1].isBypassible
  }

  // Values

  /** The instruction issued at `t` is executed as in the sequential run. */
  ghost predicate Right(w: Work, h: History, a: Arch, t: int)
    requires Alive(h, t)
  {
    Made(w, h, t) == SpecOp(a, h, t)
  }

  /** Everything executed is right, save perhaps the last issue if a misprediction is about to take
      it back; and so are memory and the register file. */
  ghost predicate ValuesOk(s: Core, h: History, a: Arch, w: Work) {
    && s.isa == a.isa
    && WellFormedHistory(h)
    && (forall t :: t < s.cycle - 1 && Alive(h, t) ==> Right(w, h, a, t))
    && (forall t :: t < s.cycle - 2 && Alive(h, t) ==> Finished(w, h, t) == SpecFinal(a, h, t))
    && (Alive(h, s.cycle - 1) && !Branch(s).miss ==> Right(w, h, a, s.cycle - 1))
    && s.rf == At(a, h, Committed(s)).rf
    && s.mem == At(a, h, s.cycle - 2).mem
  }

  /** The invariant of safe runs. */
  ghost predicate InvAt(s: Core, h: History, a: Arch, w: Work) {
    && FlowAt(s, h, w)
    && (!s.flushAll ==> ScoreboardOk(s, h))
    && ValuesOk(s, h, a, w)
  }

  /** The second assumption: when a source of what decode issues is to be taken from a bypass port,
      the write of its youngest producer replaces the word. */
  ghost predicate ForwardingSafe(s: Core, h: History, fetched: Option<Instr>, a: Arch) {
    var issue := IssuedInstr(s, fetched);
    issue.Some? ==> SourceWhole(s, h, a, issue.value.src0) && SourceWhole(s, h, a, issue.value.src1)
  }

  ghost predicate SourceWhole(s: Core, h: History, a: Arch, r: Register) {
    var p := LastWriter(h, s.cycle, r);
    p >= 0 && SourceCommand(s, BypassInDecode(s), r).Some? ==> ReplacesWord(a, h, p, r)
  }
}
