/** One cycle moves every instruction to its next place. */
module StepData {
  import opened Operations
  import opened Options
  import opened Scoreboard
  import opened Pipeline
  import opened Timeline
  import opened Invariant
  import opened StepRecord

  lemma FinalIsExecuted(w: Work, h: History, t: int)
    requires Alive(h, t) && !h[t].value.IsLoad()
    ensures Finished(w, h, t) == Made(w, h, t)
  {
  }

  lemma SamePlace(w: Work, h: History, h': History, t: int)
    requires Slot(h', t) == Slot(h, t) && Alive(h, t)
    ensures Alive(h', t) && Made(w, h', t) == Made(w, h, t) && Finished(w, h', t) == Finished(w, h, t)
  {
  }

  // Write-back

  /** The instruction due in cycle `c`, or -1. Its class fixes when it was issued, and write-back
      order keeps instructions of different classes from being due together. */
  lemma DueCycle(h: History, c: int, l: LongLatency) returns (p: int)
    requires InOrder(h, l)
    ensures p == -1 || (Alive(h, p) && WritebackCycle(h, p, l) == c)
    ensures forall t :: Alive(h, t) && WritebackCycle(h, t, l) == c ==> t == p
    ensures (BranchAt(h, c - 3) || MemAt(h, c - 3)) <==> p == c - 3 && p != -1 && !LongAt(h, p)
    ensures LongAt(h, c - 1 - l) <==> p == c - 1 - l && p != -1 && LongAt(h, p)
    ensures ShortAt(h, c - 2) <==> p == c - 2 && p != -1
    ensures p == -1 || (p == c - 3 && !LongAt(h, p)) || (p == c - 1 - l && LongAt(h, p)) || p == c - 2
  {
    hide InOrder;
    var x, y, z := c - 3, c - 1 - l, c - 2;
    NotDueTogether(h, l, x, y);
    NotDueTogether(h, l, x, z);
    NotDueTogether(h, l, y, z);
    if BranchAt(h, x) || MemAt(h, x) {
      p := x;
    } else if LongAt(h, y) {
      p := y;
    } else if ShortAt(h, z) {
      p := z;
    } else {
      p := -1;
    }
  }

  lemma NotDueTogether(h: History, l: LongLatency, t: int, u: int)
    requires InOrder(h, l)
    ensures Alive(h, t) && Alive(h, u) && t != u ==> WritebackCycle(h, t, l) != WritebackCycle(h, u, l)
  {
    hide WritebackCycle;
  }

  /** Write-back reads the one instruction that is due in this cycle, with its final result, and
      nothing when none is due: the three inputs never deliver two. */
  lemma WritebackReads(s: Core, h: History, w: Work) returns (p: int)
    requires InOrder(h, s.longLatency) && WritebackInputsOk(s, h, w)
    ensures p == -1 || (Alive(h, p) && WritebackCycle(h, p, s.longLatency) == s.cycle)
    ensures p != -1 ==> ReadInstructions(s) == [Finished(w, h, p)]
    ensures p == -1 ==> ReadInstructions(s) == []
    ensures forall t :: Alive(h, t) && WritebackCycle(h, t, s.longLatency) == s.cycle ==> t == p
    ensures |s.fromExecute| <= 1
  {
    hide *;
    p := DueCycle(h, s.cycle, s.longLatency);
    InputsByDue(s, h, w, p);
  }

  lemma InputsByDue(s: Core, h: History, w: Work, p: int)
    requires WritebackInputsOk(s, h, w) && (p == -1 || Alive(h, p))
    requires (BranchAt(h, s.cycle - 3) || MemAt(h, s.cycle - 3)) <==> p == s.cycle - 3 && p != -1 && !LongAt(h, p)
    requires LongAt(h, s.cycle - 1 - s.longLatency) <==> p == s.cycle - 1 - s.longLatency && p != -1 && LongAt(h, p)
    requires ShortAt(h, s.cycle - 2) <==> p == s.cycle - 2 && p != -1
    requires || p == -1 || (p == s.cycle - 3 && !LongAt(h, p))
             || (p == s.cycle - 1 - s.longLatency && LongAt(h, p)) || p == s.cycle - 2
    ensures ReadInstructions(s) == (if p == -1 then [] else [Finished(w, h, p)])
    ensures |s.fromExecute| <= 1
  {
    hide *;
    if p == -1 {
      NoInput(s, h, w);
    } else if p == s.cycle - 2 {
      ShortInput(s, h, w, p);
    } else if LongAt(h, p) {
      LongInput(s, h, w, p);
    } else {
      StageInput(s, h, w, p);
    }
  }

  lemma NoInput(s: Core, h: History, w: Work)
    requires WritebackInputsOk(s, h, w)
    requires !BranchAt(h, s.cycle - 3) && !MemAt(h, s.cycle - 3)
    requires !LongAt(h, s.cycle - 1 - s.longLatency) && !ShortAt(h, s.cycle - 2)
    ensures ReadInstructions(s) == [] && s.fromExecute == []
  {
    hide Made, Finished, LongAt, BranchAt, MemAt, ShortAt;
  }

  lemma ShortInput(s: Core, h: History, w: Work, p: int)
    requires WritebackInputsOk(s, h, w) && p == s.cycle - 2 && ShortAt(h, p)
    requires !BranchAt(h, s.cycle - 3) && !MemAt(h, s.cycle - 3) && !LongAt(h, s.cycle - 1 - s.longLatency)
    ensures Alive(h, p) && ReadInstructions(s) == [Finished(w, h, p)] && |s.fromExecute| == 1
  {
    hide Made, Finished, ReadInstructions, LongAt, BranchAt;
    OneInput(s);
    FinalIsExecuted(w, h, p);
  }

  lemma LongInput(s: Core, h: History, w: Work, p: int)
    requires WritebackInputsOk(s, h, w) && p == s.cycle - 1 - s.longLatency && LongAt(h, p)
    requires !BranchAt(h, s.cycle - 3) && !MemAt(h, s.cycle - 3) && !ShortAt(h, s.cycle - 2)
    ensures Alive(h, p) && ReadInstructions(s) == [Finished(w, h, p)] && |s.fromExecute| == 1
  {
    hide Made, Finished, ReadInstructions, ShortAt, MemAt, BranchAt;
    OneInput(s);
    FinalIsExecuted(w, h, p);
  }

  lemma StageInput(s: Core, h: History, w: Work, p: int)
    requires WritebackInputsOk(s, h, w) && p == s.cycle - 3 && (BranchAt(h, p) || MemAt(h, p))
    requires !LongAt(h, s.cycle - 1 - s.longLatency) && !ShortAt(h, s.cycle - 2)
    ensures Alive(h, p) && ReadInstructions(s) == [Finished(w, h, p)] && s.fromExecute == []
  {
    hide Made, Finished, ReadInstructions, ShortAt, LongAt, BranchAt, MemAt;
    OneInput(s);
    OneStage(h, p);
    if BranchAt(h, p) {
      FinalIsExecuted(w, h, p);
    }
  }

  lemma OneStage(h: History, p: int)
    ensures BranchAt(h, p) ==> Alive(h, p) && !h[p].value.IsLoad() && !MemAt(h, p)
    ensures MemAt(h, p) ==> Alive(h, p)
  {
  }

  lemma OneInput(s: Core)
    ensures var r := ReadInstructions(s);
            && (s.fromBranch.Some? && s.fromMem.None? && s.fromExecute == [] ==> r == [s.fromBranch.value])
            && (s.fromBranch.None? && s.fromMem.Some? && s.fromExecute == [] ==> r == [s.fromMem.value])
            && (s.fromBranch.None? && s.fromMem.None? && |s.fromExecute| == 1 ==> r == s.fromExecute)
            && (s.fromBranch.None? && s.fromMem.None? && s.fromExecute == [] ==> r == [])
  {
  }

  lemma {:induction false} NoneRetired(w: Work, h: History, m: int, n: int, l: LongLatency)
    requires 0 <= m <= n && forall t :: m <= t < n ==> !Alive(h, t)
    ensures RetiredUpto(w, h, n, l) == RetiredUpto(w, h, m, l)
    decreases n - m
  {
    hide Finished, WritebackCycle;
    if m < n {
      NoneRetired(w, h, m, n - 1, l);
      assert !Alive(h, n - 1);
      RetiredUnfolds(w, h, n, l);
    }
  }

  lemma RetiredUnfolds(w: Work, h: History, n: int, l: LongLatency)
    requires n > 0
    ensures RetiredUpto(w, h, n, l) == RetiredUpto(w, h, n - 1, l) + RetiredAt(w, h, n - 1, l)
  {
    hide Finished, WritebackCycle;
  }

  lemma {:induction false} RetiredPrefix(w: Work, h: History, h': History, n: int, l: LongLatency)
    requires AgreeUpto(h, h', n)
    ensures RetiredUpto(w, h, n, l) == RetiredUpto(w, h', n, l)
    decreases n
  {
    hide RetiredUpto, RetiredAt, AgreeUpto;
    if n > 0 {
      assert AgreeUpto(h, h', n - 1) by {
        AgreeLess(h, h', n);
      }
      RetiredPrefix(w, h, h', n - 1, l);
      RetiredUnfolds(w, h, n, l);
      RetiredUnfolds(w, h', n, l);
      SameRetirement(w, h, h', n - 1, l);
    } else {
      assert RetiredUpto(w, h, n, l) == RetiredUpto(w, h', n, l) by {
        NothingRetired(w, h, n, l);
        NothingRetired(w, h', n, l);
      }
    }
  }

  lemma NothingRetired(w: Work, h: History, n: int, l: LongLatency)
    requires n <= 0
    ensures RetiredUpto(w, h, n, l) == []
  {
  }

  lemma AgreeLess(h: History, h': History, n: int)
    requires AgreeUpto(h, h', n)
    ensures AgreeUpto(h, h', n - 1)
  {
  }

  lemma SameRetirement(w: Work, h: History, h': History, t: int, l: LongLatency)
    requires AgreeUpto(h, h', t + 1)
    ensures RetiredAt(w, h, t, l) == RetiredAt(w, h', t, l)
  {
    hide Made, Finished;
    assert Slot(h, t) == Slot(h', t);
    if Alive(h, t) {
      SamePlace(w, h, h', t);
    }
  }

  lemma {:induction false} AccessedPrefix(w: Work, h: History, h': History, n: int)
    requires AgreeUpto(h, h', n)
    ensures AccessedUpto(w, h, n) == AccessedUpto(w, h', n)
    decreases n
  {
    hide Made, Finished;
    if n > 0 {
      AccessedPrefix(w, h, h', n - 1);
      assert Slot(h', n - 1) == Slot(h, n - 1);
      if Alive(h, n - 1) {
        SamePlace(w, h, h', n - 1);
      }
    }
  }

  lemma RetiredNow(x: Op, cycle: nat)
    ensures Retirements([x], cycle) == [Retirement(x, cycle)]
  {
  }

  lemma NoneNow(cycle: nat)
    ensures Retirements([], cycle) == []
  {
  }

  /** Which survivors are due by the end of cycle `c`, when `p` is the one due in it. */
  lemma DueKept(h: History, h': History, c: nat, n: nat, l: LongLatency, issue: Option<Instr>, miss: bool,
                p: int, t: int)
    requires InOrder(h, l) && Grows(h, h', c, issue, miss) && Alive(h', t) && n <= c
    requires forall u :: Alive(h, u) ==> (u < n <==> WritebackCycle(h, u, l) < c)
    requires p == -1 || (Alive(h, p) && WritebackCycle(h, p, l) == c)
    requires forall u :: Alive(h, u) && WritebackCycle(h, u, l) == c ==> u == p
    ensures t < (if p == -1 then n else p + 1) <==> WritebackCycle(h', t, l) < c + 1
  {
    if t < c {
      assert Slot(h', t) == Slot(h, t);
      assert WritebackCycle(h', t, l) == WritebackCycle(h, t, l);
    }
  }

  /** A cycle in which nothing is due. */
  lemma CommitNone(n: nat, c: nat, retired: seq<Retirement>, h: History, h': History, w: Work,
                   l: LongLatency, issue: Option<Instr>, miss: bool)
    requires InOrder(h, l) && CommittedIs(n, c, retired, h, w, l) && Grows(h, h', c, issue, miss)
    requires forall u :: Alive(h, u) ==> WritebackCycle(h, u, l) != c
    ensures CommittedIs(n, c + 1, retired, h', w, l)
  {
    hide RetiredUpto;
    if n > 0 {
      assert n + 1 <= WritebackCycle(h, n - 1, l) < c;
      assert Slot(h', n - 1) == Slot(h, n - 1);
    }
    RetiredPrefix(w, h, h', n, l);
    forall t | Alive(h', t)
      ensures t < n <==> WritebackCycle(h', t, l) < c + 1
    {
      DueKept(h, h', c, n, l, issue, miss, -1, t);
    }
  }

  /** Nothing older than the one due is left. */
  lemma NothingLeft(n: nat, c: nat, h: History, l: LongLatency, p: int)
    requires InOrder(h, l) && Alive(h, p) && WritebackCycle(h, p, l) == c
    requires forall u :: Alive(h, u) ==> (u < n <==> WritebackCycle(h, u, l) < c)
    ensures n <= p <= c - 2
    ensures forall t :: n <= t < p ==> !Alive(h, t)
    ensures forall u :: Alive(h, u) && WritebackCycle(h, u, l) == c ==> u == p
  {
    assert p + 2 <= c;
    assert forall u :: Alive(h, u) && WritebackCycle(h, u, l) == c ==> !(u < p) && !(p < u);
    hide WritebackCycle;
  }

  lemma RetiredNext(n: nat, c: nat, h: History, h': History, w: Work, l: LongLatency, p: int)
    requires n <= p && Alive(h, p) && WritebackCycle(h, p, l) == c && AgreeUpto(h, h', p + 1)
    requires forall t :: n <= t < p ==> !Alive(h, t)
    ensures RetiredUpto(w, h', p + 1, l) == RetiredUpto(w, h, n, l) + [Retirement(Finished(w, h, p), c)]
  {
    hide Finished, RetiredUpto, WritebackCycle, AgreeUpto;
    NoneRetired(w, h, n, p, l);
    RetiredPrefix(w, h, h', p + 1, l);
    RetiredUnfolds(w, h, p + 1, l);
  }

  lemma AgreesThrough(h: History, h': History, c: nat, issue: Option<Instr>, miss: bool, p: int)
    requires Grows(h, h', c, issue, miss) && p <= c - 2
    ensures AgreeUpto(h, h', p + 1) && (Alive(h, p) ==> Alive(h', p))
  {
    assert Slot(h', p) == Slot(h, p);
  }

  /** A cycle that writes back the survivor issued at `p`. */
  lemma CommitOne(n: nat, c: nat, retired: seq<Retirement>, h: History, h': History, w: Work,
                  l: LongLatency, issue: Option<Instr>, miss: bool, p: int)
    requires InOrder(h, l) && CommittedIs(n, c, retired, h, w, l) && Grows(h, h', c, issue, miss)
    requires Alive(h, p) && WritebackCycle(h, p, l) == c
    ensures 0 <= p && CommittedIs(p + 1, c + 1, retired + [Retirement(Finished(w, h, p), c)], h', w, l)
  {
    hide Finished, RetiredUpto, WritebackCycle, InOrder, Grows, AgreeUpto, Alive;
    NothingLeft(n, c, h, l, p);
    AgreesThrough(h, h', c, issue, miss, p);
    RetiredNext(n, c, h, h', w, l, p);
    forall t | Alive(h', t)
      ensures t < p + 1 <==> WritebackCycle(h', t, l) < c + 1
    {
      DueKept(h, h', c, n, l, issue, miss, p, t);
    }
  }

  lemma CommitKept(s: Core, s': Core, h: History, h': History, w: Work, issue: Option<Instr>, miss: bool)
    requires |h| == s.cycle && InOrder(h, s.longLatency) && WritebackInputsOk(s, h, w) && CommitOk(s, h, w)
    requires Grows(h, h', s.cycle, issue, miss)
    requires s'.cycle == s.cycle + 1 && s'.longLatency == s.longLatency
    requires s'.retired == s.retired + Retirements(ReadInstructions(s), s.cycle)
    ensures CommitOk(s', h', w)
  {
    hide CommittedIs, InOrder, Grows, WritebackInputsOk, Finished, Retirements, ReadInstructions;
    hide Alive, WritebackCycle, Committed;
    NeverIssued(h);
    var p := WritebackReads(s, h, w);
    if p == -1 {
      NoneNow(s.cycle);
      CommitNone(Committed(s), s.cycle, s.retired, h, h', w, s.longLatency, issue, miss);
      SameCommit(s, s', h', w);
    } else {
      var x := Finished(w, h, p);
      RetiredNow(x, s.cycle);
      BornThen(w, h, p);
      CommitOne(Committed(s), s.cycle, s.retired, h, h', w, s.longLatency, issue, miss, p);
      NewCommit(s, s', x, h', w);
    }
  }

  lemma BornThen(w: Work, h: History, p: int)
    requires Alive(h, p)
    ensures Finished(w, h, p).born == p && Finished(w, h, p).instr == h[p].value
  {
  }

  lemma NeverIssued(h: History)
    ensures !Alive(h, -1)
  {
  }

  lemma SameCommit(s: Core, s': Core, h': History, w: Work)
    requires s'.cycle == s.cycle + 1 && s'.longLatency == s.longLatency && s'.retired == s.retired + []
    requires CommittedIs(Committed(s), s.cycle + 1, s.retired, h', w, s.longLatency)
    ensures CommitOk(s', h', w)
  {
    assert s'.retired == s.retired;
  }

  lemma NewCommit(s: Core, s': Core, x: Op, h': History, w: Work)
    requires s'.cycle == s.cycle + 1 && s'.longLatency == s.longLatency
    requires s'.retired == s.retired + [Retirement(x, s.cycle)]
    requires CommittedIs(x.born + 1, s.cycle + 1, s.retired + [Retirement(x, s.cycle)], h', w, s.longLatency)
    ensures CommitOk(s', h', w)
  {
    assert Committed(s') == x.born + 1;
  }

  // Memory

  lemma AccessKept(s: Core, s': Core, h: History, h': History, w: Work, issue: Option<Instr>, miss: bool)
    requires |h| == s.cycle && FlushOk(s, h) && AccessOk(s, h, w) && Works(s, w)
    requires !s.flushAll ==> ExecutedOk(s, h, w)
    requires Grows(h, h', s.cycle, issue, miss)
    requires s'.cycle == s.cycle + 1
    requires s'.accessed == s.accessed + AsSeq(Mem(s).toWriteback)
    ensures AccessOk(s', h', w)
  {
    hide Mem, Finished, Made, ExecutedOk, Works, FlushOk;
    MemOutput(s, h, w);
    AccessedPrefix(w, h, h', s.cycle - 1);
  }

  lemma MemOutput(s: Core, h: History, w: Work)
    requires FlushOk(s, h) && Works(s, w)
    requires !s.flushAll ==> ExecutedOk(s, h, w)
    ensures Mem(s).toWriteback == if MemAt(h, s.cycle - 2) then Some(Finished(w, h, s.cycle - 2)) else None
  {
    assert s.flushAll ==> !Alive(h, s.cycle - 2);
  }

  lemma BranchOutput(s: Core, h: History, w: Work)
    requires FlushOk(s, h)
    requires !s.flushAll ==> ExecutedOk(s, h, w)
    ensures Branch(s).toWriteback == if BranchAt(h, s.cycle - 2) then Some(Made(w, h, s.cycle - 2)) else None
    ensures Branch(s).miss ==> BranchAt(h, s.cycle - 2)
  {
    assert s.flushAll ==> !Alive(h, s.cycle - 2);
  }

  // Execute

  lemma LongOutput(s: Core, h: History, w: Work)
    requires s.Shaped() && !s.flushAll && LongUnitOk(s, h, w)
    ensures LongDone(s) == LongOps(h, w, s.cycle - s.longLatency)
  {
    assert LongItemOk(s, h, w, 0);
  }

  /** What execute does with the instruction issued at `t` and the long one leaving its unit. */
  ghost predicate ExecuteIs(e: ExecuteOut, s: Core, h: History, w: Work, t: int)
    requires s.Shaped()
  {
    && e.flushExpiration == ClockedSavedFlush(s)
    && e.longUnit == s.longUnit[1..] + [if LongAt(h, t) then Some(Made(w, h, t)) else None]
    && e.toMem == (if MemAt(h, t) then Some(Made(w, h, t)) else None)
    && e.toBranch == (if BranchAt(h, t) then Some(Made(w, h, t)) else None)
    && e.toWriteback == LongOps(h, w, t + 1 - s.longLatency) + ShortOps(h, w, t)
    && e.bypassExecute == (if Alive(h, t) && !LongAt(h, t) then [OutputOf(Made(w, h, t))] else [])
    && e.bypassLong == Outputs(LongOps(h, w, t + 1 - s.longLatency))
  }

  /** The same, with the instruction and the item leaving the long unit given. */
  ghost predicate ExecuteDoes(e: ExecuteOut, s: Core, x: Option<Op>, done: seq<Op>)
    requires s.Shaped()
  {
    var long := x.Some? && x.value.instr.IsLongArithmetic();
    var jump := x.Some? && x.value.instr.IsJump();
    var mem := x.Some? && x.value.instr.IsMemStageRequired();
    && e.flushExpiration == ClockedSavedFlush(s)
    && e.longUnit == s.longUnit[1..] + [if long then x else None]
    && e.toMem == (if mem then x else None)
    && e.toBranch == (if jump then x else None)
    && e.toWriteback == done + (if x.Some? && !long && !jump && !mem then [x.value] else [])
    && e.bypassExecute == (if x.Some? && !long then [OutputOf(x.value)] else [])
    && e.bypassLong == (if done == [] then [] else [OutputOf(done[0])])
  }

  lemma ExecuteOutcome(s: Core)
    requires s.Shaped() && !s.flushAll
    ensures ExecuteDoes(Execute(s), s, if s.toExecute.Some? then Some(ExecutedOp(s, s.toExecute.value)) else None,
                        LongDone(s))
  {
    hide LongDone, ClockedSavedFlush, ExecutedOp, OutputOf;
    var done := LongDone(s);
    assert done + [] == done;
  }

  lemma ExecuteOutput(s: Core, h: History, w: Work)
    requires s.Shaped() && !s.flushAll && IssueOk(s, h, w) && LongUnitOk(s, h, w)
    ensures ExecuteIs(Execute(s), s, h, w, s.cycle - 1)
  {
    hide LongUnitOk, LongDone, ClockedSavedFlush, LongOps, ExecutedOp, Made, OutputOf, Outputs, Execute;
    LongOutput(s, h, w);
    LongOutputs(s);
    ExecuteOutcome(s);
    if Alive(h, s.cycle - 1) {
      MadeIsInstr(h, w, s.cycle - 1);
    }
  }

  lemma MadeIsInstr(h: History, w: Work, t: int)
    requires Alive(h, t)
    ensures Made(w, h, t).instr == h[t].value
  {
  }

  lemma LongOutputs(s: Core)
    requires s.Shaped()
    ensures var done := LongDone(s); Outputs(done) == if done == [] then [] else [OutputOf(done[0])]
  {
  }
}
