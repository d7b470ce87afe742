/** One cycle keeps the ports behind execute and the long unit right. */
module StepStages {
  import opened Operations
  import opened Options
  import opened Pipeline
  import opened Timeline
  import opened Invariant
  import opened StepRecord
  import opened StepData

  lemma ExecutedKept(s: Core, s': Core, h: History, h': History, w: Work, issue: Option<Instr>)
    requires s.Shaped() && |h| == s.cycle && Grows(h, h', s.cycle, issue, false) && FlushOk(s, h)
    requires !s.flushAll ==> IssueOk(s, h, w) && LongUnitOk(s, h, w)
    requires s'.toMem == Execute(s).toMem && s'.toBranch == Execute(s).toBranch && s'.cycle == s.cycle + 1
    ensures ExecutedOk(s', h', w)
  {
    hide IssueOk, LongUnitOk, Made, Finished;
    var t := s.cycle - 1;
    assert Slot(h', t) == Slot(h, t);
    if Alive(h, t) {
      SamePlace(w, h, h', t);
    }
    if s.flushAll {
      assert !Alive(h, t);
    } else {
      ExecuteOutput(s, h, w);
    }
  }

  /** The class tests and results of an older instruction, seen from the new history. */
  lemma OlderUnchanged(h: History, h': History, c: int, issue: Option<Instr>, miss: bool, w: Work, t: int)
    requires Grows(h, h', c, issue, miss) && t < c - 1
    ensures Slot(h', t) == Slot(h, t)
    ensures Alive(h, t) ==>
              Alive(h', t) && Made(w, h', t) == Made(w, h, t) && Finished(w, h', t) == Finished(w, h, t)
  {
    assert Slot(h', t) == Slot(h, t);
  }

  lemma SameClass(h: History, h': History, t: int)
    requires Slot(h', t) == Slot(h, t)
    ensures (MemAt(h', t) <==> MemAt(h, t)) && (BranchAt(h', t) <==> BranchAt(h, t))
    ensures MemAt(h, t) || BranchAt(h, t) ==> Alive(h, t)
  {
  }

  lemma WritebackInputsKept(s: Core, s': Core, h: History, h': History, w: Work, issue: Option<Instr>, miss: bool)
    requires s.Shaped() && |h| == s.cycle && InOrder(h, s.longLatency)
    requires Grows(h, h', s.cycle, issue, miss) && FlushOk(s, h) && Works(s, w)
    requires !s.flushAll ==> IssueOk(s, h, w) && ExecutedOk(s, h, w) && LongUnitOk(s, h, w)
    requires miss ==> BranchAt(h, s.cycle - 2)
    requires s'.fromExecute == Execute(s).toWriteback && s'.fromMem == Mem(s).toWriteback
    requires s'.fromBranch == Branch(s).toWriteback
    requires s'.cycle == s.cycle + 1 && s'.longLatency == s.longLatency
    ensures WritebackInputsOk(s', h', w)
  {
    hide IssueOk, ExecutedOk, LongUnitOk, InOrder, Works, FlushOk, Grows, Made, Finished, Execute, Mem;
    hide Branch, LongOps, ShortOps, BranchAt, MemAt, Alive;
    var x := s.cycle - 2;
    OlderUnchanged(h, h', s.cycle, issue, miss, w, x);
    SameClass(h, h', x);
    MemOutput(s, h, w);
    BranchOutput(s, h, w);
    ExecutedToWriteback(s, h, w);
    ShortUnchanged(s, h, h', w, issue, miss);
    LongUnchanged(s, h, h', w, issue, miss);
  }

  lemma ExecutedToWriteback(s: Core, h: History, w: Work)
    requires s.Shaped() && FlushOk(s, h)
    requires !s.flushAll ==> IssueOk(s, h, w) && LongUnitOk(s, h, w)
    ensures Execute(s).toWriteback == LongOps(h, w, s.cycle - s.longLatency) + ShortOps(h, w, s.cycle - 1)
  {
    hide IssueOk, LongUnitOk, FlushOk, Execute, Made, LongAt, ShortAt;
    if s.flushAll {
      FlushedExecute(s, h);
    } else {
      hide LongOps, ShortOps;
      ExecuteOutput(s, h, w);
    }
  }

  lemma LongUnchanged(s: Core, h: History, h': History, w: Work, issue: Option<Instr>, miss: bool)
    requires |h| == s.cycle && Grows(h, h', s.cycle, issue, miss)
    ensures LongOps(h', w, s.cycle - s.longLatency) == LongOps(h, w, s.cycle - s.longLatency)
  {
    hide Made, Finished, Grows;
    OlderUnchanged(h, h', s.cycle, issue, miss, w, s.cycle - s.longLatency);
  }

  /** A short instruction just executed is not one a misprediction takes back: it would have been
      due together with the branch. */
  lemma ShortUnchanged(s: Core, h: History, h': History, w: Work, issue: Option<Instr>, miss: bool)
    requires |h| == s.cycle && InOrder(h, s.longLatency) && Grows(h, h', s.cycle, issue, miss)
    requires miss ==> BranchAt(h, s.cycle - 2)
    ensures ShortOps(h', w, s.cycle - 1) == ShortOps(h, w, s.cycle - 1)
  {
    var t, l := s.cycle - 1, s.longLatency;
    if miss {
      assert Alive(h, t - 1) && Alive(h, t) ==> WritebackCycle(h, t - 1, l) < WritebackCycle(h, t, l);
    } else {
      assert Slot(h', t) == Slot(h, t);
      if Alive(h, t) {
        SamePlace(w, h, h', t);
      }
    }
  }

  /** In the cycle of a flush nothing that survives is in execute or in the long unit. */
  lemma FlushedExecute(s: Core, h: History)
    requires s.Shaped() && s.flushAll && FlushOk(s, h)
    ensures Execute(s).toWriteback == [] && !LongAt(h, s.cycle - s.longLatency) && !ShortAt(h, s.cycle - 1)
    ensures forall t :: t >= s.cycle - s.longLatency ==> !LongAt(h, t)
  {
  }

  // The long unit

  /** The item as the old history has it. */
  lemma LongItemMoves(s: Core, h: History, w: Work, k: int)
    requires s.Shaped() && |h| == s.cycle && !s.flushAll && IssueOk(s, h, w) && LongUnitOk(s, h, w)
    requires s.flushExpiration <= s.longLatency - 1 && 0 <= k < s.longLatency - 1
    ensures var e, t := Execute(s), s.cycle + 1 + k - s.longLatency;
            (if e.flushExpiration <= k + 1 then e.longUnit[k] else None)
            == (if LongAt(h, t) then Some(Made(w, h, t)) else None)
  {
    hide IssueOk, Made, Execute, ExecuteIs, LongAt;
    ExecuteOutput(s, h, w);
    UnitShifts(Execute(s), s, h, w, s.cycle - 1, k);
    if k < s.longLatency - 2 {
      assert LongItemOk(s, h, w, k + 1);
    }
  }

  lemma UnitShifts(e: ExecuteOut, s: Core, h: History, w: Work, t: int, k: int)
    requires s.Shaped() && ExecuteIs(e, s, h, w, t) && 0 <= k < s.longLatency - 1
    ensures e.flushExpiration == ClockedSavedFlush(s) && |e.longUnit| == s.longLatency - 1
    ensures k < s.longLatency - 2 ==> e.longUnit[k] == s.longUnit[k + 1]
    ensures k == s.longLatency - 2 ==> e.longUnit[k] == if LongAt(h, t) then Some(Made(w, h, t)) else None
  {
    hide Made, LongAt, LongOps, ShortOps, Outputs, OutputOf;
  }

  lemma LongItemFlushed(s: Core, h: History, k: int)
    requires s.Shaped() && s.flushAll && FlushOk(s, h) && 0 <= k < s.longLatency - 1
    ensures var e, t := Execute(s), s.cycle + 1 + k - s.longLatency;
            (e.flushExpiration <= k + 1 ==> e.longUnit[k] == None) && !LongAt(h, t)
  {
  }

  lemma LongItemKept(s: Core, s': Core, h: History, h': History, w: Work, issue: Option<Instr>, k: int)
    requires s.Shaped() && s'.Shaped() && |h| == s.cycle && Grows(h, h', s.cycle, issue, false) && FlushOk(s, h)
    requires s.flushExpiration <= s.longLatency - 1
    requires !s.flushAll ==> IssueOk(s, h, w) && LongUnitOk(s, h, w)
    requires s'.longUnit == Execute(s).longUnit && s'.flushExpiration == Execute(s).flushExpiration
    requires s'.cycle == s.cycle + 1 && s'.longLatency == s.longLatency
    requires 0 <= k < s.longLatency - 1
    ensures LongItemOk(s', h', w, k)
  {
    hide IssueOk, LongUnitOk, FlushOk, Made, Finished, Execute;
    var t := s.cycle + 1 + k - s.longLatency;
    assert Slot(h', t) == Slot(h, t);
    if Alive(h, t) {
      SamePlace(w, h, h', t);
    }
    if s.flushAll {
      LongItemFlushed(s, h, k);
    } else {
      LongItemMoves(s, h, w, k);
    }
  }

  // The next state

  /** What the stages put on the bypass ports in this cycle. */
  ghost predicate PortsWritten(s: Core, s': Core)
    requires s.Shaped()
  {
    && s'.bypassExecute == Execute(s).bypassExecute
    && s'.bypassLong == Execute(s).bypassLong
    && s'.bypassMem == (if Mem(s).toWriteback.Some? then [OutputOf(Mem(s).toWriteback.value)] else [])
    && s'.bypassWriteback == Outputs(ReadInstructions(s))
    && s'.bypassBranch == (if Branch(s).toWriteback.Some? then [OutputOf(Branch(s).toWriteback.value)] else [])
  }

  /** The next state's view of what decode sends on. */
  ghost predicate DecodeSent(s: Core, s': Core, fetched: Option<Instr>) {
    var d := Decode(s, fetched);
    && s'.notify == IssuedInstr(s, fetched)
    && s'.toExecute == d.issue && s'.command0 == d.command0 && s'.command1 == d.command1
  }

  /** The fields of the next state, as the lemmas of this and the other modules name them. */
  ghost predicate NextIs(s: Core, fetched: Option<Instr>, s': Core) {
    && s.Shaped() && s'.Shaped() && s'.cycle == s.cycle + 1 && s'.longLatency == s.longLatency && s'.isa == s.isa
    && s'.issued == s.issued + [IssuedInstr(s, fetched)]
    && s'.misses == (if Branch(s).miss then s.misses + {s.cycle} else s.misses)
    && s'.flushAll == Branch(s).miss
    && s'.bypass == BypassInDecode(s)
    && DecodeSent(s, s', fetched) && PortsWritten(s, s')
    && s'.longUnit == Execute(s).longUnit && s'.flushExpiration == Execute(s).flushExpiration
    && s'.toMem == Execute(s).toMem && s'.toBranch == Execute(s).toBranch
    && s'.fromExecute == Execute(s).toWriteback && s'.fromMem == Mem(s).toWriteback
    && s'.fromBranch == Branch(s).toWriteback
    && s'.rf == WrittenBack(s.rf, ReadInstructions(s))
    && s'.retired == s.retired + Retirements(ReadInstructions(s), s.cycle)
    && s'.mem == Mem(s).mem && s'.accessed == s.accessed + AsSeq(Mem(s).toWriteback)
  }

  lemma NextFields(s: Core, fetched: Option<Instr>)
    requires s.Shaped()
    ensures NextIs(s, fetched, Next(s, fetched))
  {
  }

  /** What decode sends on is the next last issue. */
  lemma IssueKept(s: Core, s': Core, h: History, h': History, w: Work, fetched: Option<Instr>)
    requires |h| == s.cycle && Grows(h, h', s.cycle, IssuedInstr(s, fetched), false)
    requires DecodeSent(s, s', fetched) && s'.cycle == s.cycle + 1 && Works(s', w)
    ensures IssueOk(s', h', w)
  {
    hide Decode, Operand;
    IssuedByDecode(s, fetched);
  }

  lemma IssuedByDecode(s: Core, fetched: Option<Instr>)
    ensures Decode(s, fetched).issue.Some? ==>
              var x := Decode(s, fetched).issue.value;
              IssuedInstr(s, fetched) == Some(x.instr) && x.born == s.cycle
    ensures Decode(s, fetched).issue.None? ==> IssuedInstr(s, fetched) == None
  {
  }
}
