/** The history of a run: which issued instructions survive the flushes, and what each of them
    would see and compute if the survivors ran one after the other. */
module Timeline {
  import opened Operations
  import opened Options
  import opened RegisterFile
  import opened FuncSim
  import opened Scoreboard
  import opened Pipeline

  type History = seq<Option<Instr>>

  /** A misprediction found in cycle f discards what was issued in cycles f - 1 and f. */
  function Surviving(s: Core): (h: History)
    ensures |h| == |s.issued|
  {
    seq(|s.issued|, t requires 0 <= t < |s.issued| =>
      if t in s.misses || t + 1 in s.misses then None else s.issued[t])
  }

  /** Was the instruction issued in cycle `t` taken back by a misprediction? */
  predicate TakenBack(s: Core, t: int) {
    t in s.misses || t + 1 in s.misses
  }

  function Slot(h: History, t: int): Option<Instr> {
    if 0 <= t < |h| then h[t] else None
  }

  predicate Alive(h: History, t: int) {
    Slot(h, t).Some?
  }

  lemma SurvivingSlot(s: Core, t: int)
    ensures Slot(Surviving(s), t) == if TakenBack(s, t) then None else Slot(s.issued, t)
  {
  }

  /** The cycle in which the instruction issued at `t` is written back. */
  function WritebackCycle(h: History, t: int, l: LongLatency): int
    requires Alive(h, t)
  {
    t + Latency(h[t].value, l) + 1
  }

  /** The architectural state before the instruction issued at `t`. */
  function At(a: Arch, h: History, t: int): (before: Arch)
    ensures before.isa == a.isa
    decreases t
  {
    if t <= 0 then a
    else if Slot(h, t - 1).None? then At(a, h, t - 1)
    else Step(At(a, h, t - 1), Slot(h, t - 1).value)
  }

  /** The instruction issued at `t` as the sequential run executes it, before memory access. */
  function SpecOp(a: Arch, h: History, t: int): Op
    requires Alive(h, t)
  {
    var before := At(a, h, t);
    var i := h[t].value;
    Op(i, t, before.rf[i.src0], before.rf[i.src1], Executed(before, i))
  }

  /** The same with its final result. */
  function SpecFinal(a: Arch, h: History, t: int): Op
    requires Alive(h, t)
  {
    SpecOp(a, h, t).(res := Outcome(At(a, h, t), h[t].value))
  }

  /** What a run computes, whatever its operands were: the operation execute makes of the instruction
      issued at `t`, and what load_store makes of it. */
  datatype Work = Work(executed: int -> Op, accessed: int -> Op)

  function Made(w: Work, h: History, t: int): Op
    requires Alive(h, t)
  {
    w.executed(t).(instr := h[t].value, born := t)
  }

  /** The same with its final result. */
  function Finished(w: Work, h: History, t: int): Op
    requires Alive(h, t)
  {
    if h[t].value.IsLoad() then w.accessed(t).(instr := h[t].value, born := t) else Made(w, h, t)
  }

  /** The issue cycle of the youngest survivor issued before `n` that writes `r`, or -1. */
  function LastWriter(h: History, n: int, r: Register): (p: int)
    ensures p < n || p == -1
    ensures p == -1 || (0 <= p && Alive(h, p) && h[p].value.Writes(r))
    ensures forall t :: p < t < n && Alive(h, t) ==> !Slot(h, t).value.Writes(r)
    decreases n
  {
    if n <= 0 then -1
    else if Alive(h, n - 1) && h[n - 1].value.Writes(r) then n - 1
    else LastWriter(h, n - 1, r)
  }

  ghost predicate AgreeUpto(h: History, h': History, n: int) {
    forall t :: t < n ==> Slot(h, t) == Slot(h', t)
  }

  lemma {:induction false} AtPrefix(a: Arch, h: History, h': History, t: int)
    requires AgreeUpto(h, h', t)
    ensures At(a, h, t) == At(a, h', t)
    decreases t
  {
    hide WriteDst, Outcome, LoadStoreMemory;
    if t > 0 {
      assert Slot(h, t - 1) == Slot(h', t - 1);
      AtPrefix(a, h, h', t - 1);
    }
  }

  lemma {:induction false} LastWriterPrefix(h: History, h': History, n: int, r: Register)
    requires AgreeUpto(h, h', n)
    ensures LastWriter(h, n, r) == LastWriter(h', n, r)
    decreases n
  {
    if n > 0 {
      LastWriterPrefix(h, h', n - 1, r);
    }
  }

  ghost predicate WellFormedHistory(h: History) {
    forall t :: Alive(h, t) ==> h[t].value.WellFormed()
  }

  /** Between two points with no writer of `r`, the register keeps its value. */
  lemma {:induction false} NoWriterNoChange(a: Arch, h: History, m: int, n: int, r: Register)
    requires m <= n && WellFormedHistory(h)
    requires forall t :: m <= t < n && Alive(h, t) ==> !Slot(h, t).value.Writes(r)
    ensures At(a, h, n).rf[r] == At(a, h, m).rf[r]
    decreases n - m
  {
    hide WriteDst, Outcome, Executed, LoadStoreMemory;
    if m < n {
      NoWriterNoChange(a, h, m, n - 1, r);
      if Alive(h, n - 1) {
        var before := At(a, h, n - 1);
        var i := h[n - 1].value;
        WriteDstFrame(before.rf, i, Outcome(before, i), r);
      }
    }
  }

  /** The same for memory and instructions that do not use the memory stage. */
  lemma {:induction false} NoStoreNoChange(a: Arch, h: History, m: int, n: int)
    requires m <= n
    requires forall t :: m <= t < n && Alive(h, t) ==> !Slot(h, t).value.IsMemStageRequired()
    ensures At(a, h, n).mem == At(a, h, m).mem
    decreases n - m
  {
    hide WriteDst, Outcome, Executed;
    if m < n {
      NoStoreNoChange(a, h, m, n - 1);
    }
  }

  /** The mask of the survivor issued at `p` covers all the bits in which its first result differs
      from the old value of `r`. */
  ghost predicate ReplacesWord(a: Arch, h: History, p: int, r: Register)
    requires Alive(h, p)
  {
    var res := SpecFinal(a, h, p).res;
    ApplyMask(At(a, h, p).rf[r], res.v0, res.mask) == res.v0
  }

  /** A register holds the first result of its youngest producer exactly if that producer's mask
      let all of it through. */
  lemma ProducedValue(a: Arch, h: History, p: int, n: int, r: Register)
    requires WellFormedHistory(h) && 0 <= p < n && p == LastWriter(h, n, r)
    requires r != h[p].value.dst1 && h[p].value.IsBypassible()
    ensures At(a, h, n).rf[r] == SpecFinal(a, h, p).res.v0 <==> ReplacesWord(a, h, p, r)
  {
    hide Outcome, WriteDst, ApplyMask, Executed, LoadStoreMemory;
    var before := At(a, h, p);
    var i := h[p].value;
    NoWriterNoChange(a, h, p + 1, n, r);
    WriteDstFirst(before.rf, i, Outcome(before, i));
  }

  /** A full mask always does. */
  lemma FullMaskReplaces(a: Arch, h: History, p: int, r: Register)
    requires Alive(h, p) && Executed(At(a, h, p), h[p].value).mask == ALL_ONES
    ensures ReplacesWord(a, h, p, r)
  {
    hide ApplyMask, Executed, At;
    FullMask(At(a, h, p).rf[r], SpecFinal(a, h, p).res.v0);
  }

  // Where an in-flight instruction is, by its age in cycles since issue.

  function StageAt(i: Instr, age: int, l: LongLatency): RegisterStage
    requires 1 <= age <= Latency(i, l) + 1
  {
    if age == 1 then FIRST_EXECUTION
    else if age == Latency(i, l) + 1 then WRITEBACK
    else if i.IsLongArithmetic() then RegisterStage(age - 1, 0)
    else NextAfterFirst(i)
  }

  /** The age from which the first result of `i` is on the port its stage selects. */
  function ReadyAge(i: Instr, l: LongLatency): int {
    if i.IsLongArithmetic() then l else if i.IsJump() || i.IsLoad() then 2 else 1
  }

  predicate Forwarded(i: Instr, r: Register, age: int, l: LongLatency) {
    r != i.dst1 && i.IsBypassible() && age >= ReadyAge(i, l)
  }

  function ReadyValue(i: Instr, r: Register, l: LongLatency): int {
    if r == i.dst1 || !i.IsBypassible() then IN_RF_STAGE
    else if i.IsLongArithmetic() then l - 1
    else if i.IsJump() || i.IsLoad() then MEM_OR_BRANCH_STAGE
    else FIRST_EXECUTION.value
  }

  /** The scoreboard entry of `r` while its youngest producer `i` is `age` cycles old. */
  predicate EntryMatches(e: RegisterInfo, i: Instr, r: Register, age: int, l: LongLatency) {
    && 1 <= age <= Latency(i, l) + 1
    && e.isTraced
    && e.current == StageAt(i, age, l)
    && e.next == NextAfterFirst(i)
    && e.ready.value == ReadyValue(i, r, l)
    && (e.isBypassible <==> Forwarded(i, r, age, l))
  }

  /** The entry of `r` in cycle `c`, given the instructions issued before `n`. */
  predicate EntryTracks(e: RegisterInfo, h: History, n: int, r: Register, c: int, l: LongLatency) {
    var p := LastWriter(h, n, r);
    if p < 0 || WritebackCycle(h, p, l) < c then e == UNTRACED
    else EntryMatches(e, h[p].value, r, c - p, l)
  }
}
