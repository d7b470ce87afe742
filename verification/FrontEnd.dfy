/** The pipeline with its fetch unit: what is issued and survives is what the program runs, one
    instruction after the other, whatever the predictor says. */
module FrontEnd {
  import opened Operations
  import opened Options
  import opened FuncSim
  import opened Scoreboard
  import opened Pipeline
  import opened Branching
  import opened FetchUnit
  import opened Timeline
  import opened Invariant
  import opened StepRecord
  import opened StepStages
  import opened Flow

  /** The issue cycle of the youngest survivor issued before `n`, or -1. */
  function LastIssue(h: History, n: int): (t: int)
    ensures t < n || t == -1
    ensures t == -1 || (0 <= t && Alive(h, t))
    ensures forall u :: t < u < n ==> !Alive(h, u)
    decreases n
  {
    if n <= 0 then -1 else if Alive(h, n - 1) then n - 1 else LastIssue(h, n - 1)
  }

  lemma {:induction false} LastIssuePrefix(h: History, h': History, n: int)
    requires AgreeUpto(h, h', n)
    ensures LastIssue(h, n) == LastIssue(h', n)
    decreases n
  {
    if n > 0 {
      assert Slot(h, n - 1) == Slot(h', n - 1);
      LastIssuePrefix(h, h', n - 1);
    }
  }

  lemma LastIssueIdle(h: History, n: int)
    requires n > 0 && !Alive(h, n - 1)
    ensures LastIssue(h, n) == LastIssue(h, n - 1)
  {
  }

  /** Decode has sent fetch away after `i`, but Branch is going to do so again, whatever it finds. */
  predicate Doomed(i: Instr) {
    DecodeMisprediction(i) && !DecodeDecides(i)
  }

  /** After `i` fetch may be at `pc`. */
  predicate Follows(i: Instr, pc: Addr) {
    Doomed(i) || pc == NextFetched(i)
  }

  /** After the survivors issued before `n` fetch may be at `pc`: if the last of them was found to be
      mispredicted, where it really goes; otherwise where prediction or decode sent fetch. */
  ghost predicate Due(m: set<nat>, h: History, w: Work, start: Addr, n: int, pc: Addr) {
    var t := LastIssue(h, n);
    if t < 0 then pc == start
    else if t + 2 in m then pc == w.executed(t).res.newPC
    else Follows(h[t].value, pc)
  }

  /** Every survivor came from where it was due. */
  ghost predicate ChainOk(m: set<nat>, h: History, w: Work, start: Addr) {
    forall u :: Alive(h, u) ==> Due(m, h, w, start, u, Slot(h, u).value.pc)
  }

  /** What a stalled instruction leaves waiting behind it. */
  ghost predicate WaitOk(f: FetchPorts, y: Instr)
    requires f.toDecode.Some? && Selected(f).Some?
  {
    Doomed(y) ||
    (!DecodeMisprediction(y) && f.toDecode.value.pc == NextFetched(y) && Selected(f).value == NextFetched(y))
  }

  /** What waits in decode, in the port to decode and in fetch comes from where it is due. */
  ghost predicate NextOk(f: FetchPorts, s: Core, h: History, w: Work, start: Addr)
    requires f.toDecode.Some? && Selected(f).Some?
  {
    if s.flushAll then Due(s.misses, h, w, start, s.cycle, Selected(f).value)
    else if s.flushFetch then s.stalled.None? && Due(s.misses, h, w, start, s.cycle, Selected(f).value)
    else if s.stalled.Some? then Due(s.misses, h, w, start, s.cycle, s.stalled.value.pc) && WaitOk(f, s.stalled.value)
    else
      var i := f.toDecode.value;
      Due(s.misses, h, w, start, s.cycle, i.pc) && Selected(f).value == i.bp.target
  }

  /** The invariant of the front of the pipeline. */
  ghost predicate FrontAt(f: FetchPorts, s: Core, h: History, w: Work, start: Addr) {
    && ChainOk(s.misses, h, w, start)
    && (s.cycle > 0 ==> f.toDecode.Some? && Selected(f).Some? && f.external.None? && NextOk(f, s, h, w, start))
  }

  /** No instruction whose redirect in decode could be the last word stalls there on its arrival. */
  predicate RedirectsAtOnce(s: Core, fetched: Option<Instr>) {
    var input := DecodeInput(s, fetched);
    input.Some? && s.stalled.None? && DecodeMisprediction(input.value) && DecodeDecides(input.value) ==>
      !Stalls(s, fetched)
  }

  /** What decode does with its input, and what fetch is told. */
  lemma DecodeKept(s: Core, fetched: Option<Instr>)
    requires s.Shaped()
    ensures var s', input := Next(s, fetched), DecodeInput(s, fetched);
            && s'.stalled == (if Stalls(s, fetched) then input else None)
            && IssuedInstr(s, fetched) == (if Stalls(s, fetched) then None else input)
            && s'.flushFetch == (input.Some? && !Stalls(s, fetched) && DecodeMisprediction(input.value))
  {
  }

  // A cycle

  lemma DueKept(m: set<nat>, m': set<nat>, h: History, h': History, w: Work, start: Addr, n: int, pc: Addr)
    requires AgreeUpto(h, h', n) && Due(m, h, w, start, n, pc)
    requires forall t :: t < n && Alive(h, t) ==> (t + 2 in m <==> t + 2 in m')
    ensures Due(m', h', w, start, n, pc)
  {
    LastIssuePrefix(h, h', n);
    var t := LastIssue(h, n);
    assert t >= 0 ==> Slot(h, t) == Slot(h', t);
  }

  /** After an issue, fetch goes on behind it. */
  lemma DueAfterIssue(m: set<nat>, h: History, w: Work, start: Addr, c: nat, pc: Addr)
    requires Alive(h, c) && c + 2 !in m && Follows(h[c].value, pc)
    ensures Due(m, h, w, start, c + 1, pc)
  {
  }

  /** After a misprediction, fetch goes on where the branch really goes. */
  lemma DueAfterMiss(m: set<nat>, h: History, w: Work, start: Addr, c: nat)
    requires c in m && |h| == c + 1 && !Alive(h, c) && !Alive(h, c - 1) && Alive(h, c - 2)
    ensures Due(m, h, w, start, c + 1, w.executed(c - 2).res.newPC)
  {
    LastIssueIdle(h, c + 1);
    LastIssueIdle(h, c);
  }

  /** Without an issue nothing changes. */
  lemma DueWithoutIssue(m: set<nat>, h: History, w: Work, start: Addr, c: nat, pc: Addr)
    requires Due(m, h, w, start, c, pc) && !Alive(h, c)
    ensures Due(m, h, w, start, c + 1, pc)
  {
    LastIssueIdle(h, c + 1);
  }

  /** The history after a cycle is made of the one before. */
  lemma ChainKept(m: set<nat>, m': set<nat>, h: History, h': History, w: Work, start: Addr, c: nat,
                  issue: Option<Instr>, miss: bool)
    requires ChainOk(m, h, w, start) && Grows(h, h', c, issue, miss) && (forall f :: f in m ==> f < c)
    requires m' == if miss then m + {c} else m
    requires !miss && issue.Some? ==> Due(m, h, w, start, c, issue.value.pc)
    ensures ChainOk(m', h', w, start)
  {
    hide Due;
    forall u | Alive(h', u)
      ensures Due(m', h', w, start, u, Slot(h', u).value.pc)
    {
      if u < c {
        assert u <= c - 2 || !miss;
        assert Slot(h, u) == Slot(h', u);
        DueKept(m, m', h, h', w, start, u, Slot(h, u).value.pc);
      } else {
        DueKept(m, m', h, h', w, start, c, issue.value.pc);
      }
    }
  }

  /** The cycle of reset. */
  ghost predicate Starts(f: FetchPorts, s: Core, h: History, start: Addr) {
    && f == RESET_FETCH.(external := Some(start)) && h == [] && s.misses == {}
    && !s.flushAll && !s.flushFetch && s.stalled.None? && s.toBranch.None?
  }

  lemma IssueIsDue(f: FetchPorts, s: Core, h: History, w: Work, start: Addr)
    requires FrontAt(f, s, h, w, start) && s.Shaped() && (s.cycle == 0 ==> Starts(f, s, h, start))
    ensures var issue := IssuedInstr(s, f.toDecode);
            issue.Some? ==> Due(s.misses, h, w, start, s.cycle, issue.value.pc)
  {
    hide Next, Due, IsStall, BypassInDecode, ChainOk, NextFetched, Selected, Follows, Decode;
    DecodeKept(s, f.toDecode);
  }

  /** The next cycle of fetch goes on from what it has just been told. */
  lemma SelectedNext(code: Code, f: FetchPorts, s: Core, f': FetchPorts)
    requires FetchCycle(code, f, s, f') && Selected(f).Some?
    ensures f'.toDecode.Some? && f'.toDecode.value.pc == Selected(f).value && f'.external.None?
    ensures Selected(f') ==
            if BranchTarget(s).Some? then BranchTarget(s)
            else if DecodeTarget(s, f.toDecode).Some? then DecodeTarget(s, f.toDecode)
            else if Stalls(s, f.toDecode) then Selected(f)
            else Some(f'.toDecode.value.bp.target)
  {
    hide BranchTarget, DecodeTarget, Stalls, IsFetched;
  }

  /** Where fetch is after a cycle without a misprediction. */
  lemma NextKept(code: Code, f: FetchPorts, s: Core, f': FetchPorts, s': Core, h: History, h': History, w: Work,
                 start: Addr)
    requires FrontAt(f, s, h, w, start) && s.Shaped() && s.cycle > 0
    requires FetchCycle(code, f, s, f') && s' == Next(s, f.toDecode) && !s'.flushAll && !Branch(s).miss
    requires s'.misses == s.misses && s'.cycle == s.cycle + 1 && (forall m :: m in s.misses ==> m < s.cycle)
    requires |h| == s.cycle && Grows(h, h', s.cycle, IssuedInstr(s, f.toDecode), false)
    requires RedirectsAtOnce(s, f.toDecode)
    ensures f'.toDecode.Some? && Selected(f').Some? && NextOk(f', s', h', w, start)
  {
    hide Next, IsFetched, Due, IsStall, BypassInDecode, ChainOk, Decode, Branch, DecodeMisprediction;
    hide Selected, FetchCycle, DecodeDecides, IssuedInstr;
    SelectedNext(code, f, s, f');
    DecodeKept(s, f.toDecode);
    var c, issue := s.cycle, IssuedInstr(s, f.toDecode);
    DueNext(s.misses, h, h', w, start, c, issue, Selected(f').value);
    DueNext(s.misses, h, h', w, start, c, issue, f'.toDecode.value.pc);
    if s'.stalled.Some? {
      DueNext(s.misses, h, h', w, start, c, issue, s'.stalled.value.pc);
    }
  }

  lemma FirstKept(code: Code, f: FetchPorts, s: Core, f': FetchPorts, s': Core, h: History, h': History, w: Work,
                  start: Addr)
    requires s.Shaped() && s.cycle == 0 && Starts(f, s, h, start)
    requires FetchCycle(code, f, s, f') && s' == Next(s, f.toDecode) && !s'.flushAll
    requires s'.misses == s.misses && s'.cycle == 1
    requires Grows(h, h', 0, IssuedInstr(s, f.toDecode), false)
    ensures f'.toDecode.Some? && Selected(f').Some? && NextOk(f', s', h', w, start)
  {
    hide Next, IsFetched, Due, IsStall, BypassInDecode, Decode, DecodeMisprediction, IssuedInstr, FetchCycle;
    DecodeKept(s, f.toDecode);
    SelectedNext(code, f, s, f');
    DueAtStart(h', w, start);
  }

  lemma DueAtStart(h: History, w: Work, start: Addr)
    requires |h| == 1 && !Alive(h, 0)
    ensures Due({}, h, w, start, 1, start)
  {
    LastIssueIdle(h, 1);
  }

  lemma DueNext(m: set<nat>, h: History, h': History, w: Work, start: Addr, c: nat, issue: Option<Instr>, pc: Addr)
    requires Grows(h, h', c, issue, false) && (forall f :: f in m ==> f < c)
    ensures Due(m, h, w, start, c, pc) && issue.None? ==> Due(m, h', w, start, c + 1, pc)
    ensures issue.Some? && Follows(issue.value, pc) ==> Due(m, h', w, start, c + 1, pc)
  {
    hide Due, Follows;
    if issue.None? && Due(m, h, w, start, c, pc) {
      DueKept(m, m, h, h', w, start, c, pc);
      DueWithoutIssue(m, h', w, start, c, pc);
    }
    if issue.Some? && Follows(issue.value, pc) {
      DueAfterIssue(m, h', w, start, c, pc);
    }
  }

  /** A cycle keeps the invariant, if no redirect of decode is delayed in it. */
  lemma StepKeepsFront(code: Code, f: FetchPorts, s: Core, f': FetchPorts, s': Core, h: History, h': History, w: Work,
                       start: Addr)
    requires FrontAt(f, s, h, w, start) && (s.cycle == 0 ==> Starts(f, s, h, start))
    requires FetchCycle(code, f, s, f') && s.Shaped() && s' == Next(s, f.toDecode) && NextIs(s, f.toDecode, s')
    requires (forall m :: m in s.misses ==> m < s.cycle) && Histories(s, s', h, h', f.toDecode)
    requires Branch(s).miss ==> s.toBranch.Some? && s.toBranch.value.res.newPC == w.executed(s.cycle - 2).res.newPC
    requires RedirectsAtOnce(s, f.toDecode)
    ensures FrontAt(f', s', h', w, start)
  {
    hide *;
    NextParts(s, f.toDecode, s');
    NextRecorded(s, f.toDecode, s');
    HistoriesParts(s, s', h, h', f.toDecode);
    var c, issue := s.cycle, IssuedInstr(s, f.toDecode);
    IssueIsDue(f, s, h, w, start);
    FrontParts(f, s, h, w, start);
    ChainKept(s.misses, s'.misses, h, h', w, start, c, issue, s'.flushAll);
    SomethingSelected(f, s, h, w, start);
    SelectedNext(code, f, s, f');
    if s'.flushAll {
      MissKept(code, f, s, f', s', h, h', w, start);
    } else if s.cycle == 0 {
      FirstKept(code, f, s, f', s', h, h', w, start);
    } else {
      NextKept(code, f, s, f', s', h, h', w, start);
    }
    FrontAssembled(f', s', h', w, start);
  }

  lemma NextRecorded(s: Core, fetched: Option<Instr>, s': Core)
    requires NextIs(s, fetched, s')
    ensures s'.issued == s.issued + [IssuedInstr(s, fetched)]
    ensures s'.misses == if s'.flushAll then s.misses + {s.cycle} else s.misses
  {
    hide IssuedInstr, Branch;
  }

  lemma FrontParts(f: FetchPorts, s: Core, h: History, w: Work, start: Addr)
    requires FrontAt(f, s, h, w, start)
    ensures ChainOk(s.misses, h, w, start)
  {
    hide ChainOk;
  }

  lemma FrontAssembled(f: FetchPorts, s: Core, h: History, w: Work, start: Addr)
    requires ChainOk(s.misses, h, w, start)
    requires f.toDecode.Some? && Selected(f).Some? && f.external.None? && NextOk(f, s, h, w, start)
    ensures FrontAt(f, s, h, w, start)
  {
    hide ChainOk, NextOk, Selected;
  }

  lemma SomethingSelected(f: FetchPorts, s: Core, h: History, w: Work, start: Addr)
    requires FrontAt(f, s, h, w, start) && (s.cycle == 0 ==> Starts(f, s, h, start))
    ensures Selected(f).Some?
  {
    hide ChainOk, NextOk;
  }

  /** A misprediction: fetch is sent behind the branch, now the last survivor. */
  lemma MissKept(code: Code, f: FetchPorts, s: Core, f': FetchPorts, s': Core, h: History, h': History, w: Work,
                 start: Addr)
    requires FetchCycle(code, f, s, f') && Selected(f).Some? && f'.toDecode.Some? && Selected(f').Some?
    requires |h| == s.cycle && Grows(h, h', s.cycle, IssuedInstr(s, f.toDecode), true) && BranchAt(h, s.cycle - 2)
    requires s'.misses == s.misses + {s.cycle} && s'.cycle == s.cycle + 1
    requires s'.flushAll && Branch(s).miss
    requires s.toBranch.Some? && s.toBranch.value.res.newPC == w.executed(s.cycle - 2).res.newPC
    ensures NextOk(f', s', h', w, start)
  {
    hide FetchCycle, Due, Branch, Selected, IssuedInstr;
    SelectedNext(code, f, s, f');
    assert Slot(h, s.cycle - 2) == Slot(h', s.cycle - 2);
    DueAfterMiss(s'.misses, h', w, start, s.cycle);
  }

  // Whole runs

  lemma FullParts(l: LongLatency, a: Arch, code: Code, start: Addr, fetches: seq<FetchPorts>,
                  inputs: seq<Option<Instr>>,
                  states: seq<Core>)
    requires IsFullRun(l, a, code, start, fetches, inputs, states)
    ensures IsRun(l, a, inputs, states) && |states| == |inputs| + 1 == |fetches|
    ensures fetches[0] == RESET_FETCH.(external := Some(start))
  {
    hide IsCycle, Reset, FetchCycle;
  }

  lemma FullCycleOf(l: LongLatency, a: Arch, code: Code, start: Addr, fetches: seq<FetchPorts>,
                    inputs: seq<Option<Instr>>, states: seq<Core>, k: nat)
    requires IsFullRun(l, a, code, start, fetches, inputs, states) && k < |inputs|
    ensures |states| == |inputs| + 1 == |fetches|
    ensures inputs[k] == fetches[k].toDecode && FetchCycle(code, fetches[k], states[k], fetches[k + 1])
  {
    hide IsCycle, Reset, FetchCycle;
    assert IsFullCycle(code, fetches, inputs, states, k);
  }

  lemma FirstFront(l: LongLatency, a: Arch, start: Addr, f: FetchPorts, w: Work)
    requires f == RESET_FETCH.(external := Some(start))
    ensures var s := Reset(l, a); FrontAt(f, s, Surviving(s), w, start) && Starts(f, s, Surviving(s), start)
  {
    hide NextOk, Due;
  }

  /** Whatever holds of all that fetch delivers holds of all that decode works on and issues. */
  ghost predicate HoldsOfAll(P: Instr -> bool, s: Core) {
    && (s.stalled.Some? ==> P(s.stalled.value))
    && forall t :: Slot(s.issued, t).Some? ==> P(Slot(s.issued, t).value)
  }

  lemma HoldsOfNext(P: Instr -> bool, s: Core, fetched: Option<Instr>, s': Core)
    requires HoldsOfAll(P, s) && (fetched.Some? ==> P(fetched.value)) && s.Shaped() && s' == Next(s, fetched)
    requires s'.issued == s.issued + [IssuedInstr(s, fetched)]
    ensures HoldsOfAll(P, s')
  {
    hide Next, Decode, IssuedInstr, IsStall, BypassInDecode;
    DecodeKept(s, fetched);
    forall t | Slot(s'.issued, t).Some?
      ensures P(Slot(s'.issued, t).value)
    {
      assert t < |s.issued| ==> Slot(s.issued, t) == Slot(s'.issued, t);
    }
  }

  lemma {:induction false} IssuedAreInputs(l: LongLatency, a: Arch, inputs: seq<Option<Instr>>, states: seq<Core>,
                                           n: nat, P: Instr -> bool)
    requires IsRun(l, a, inputs, states) && n <= |inputs|
    requires forall k :: 0 <= k < |inputs| && inputs[k].Some? ==> P(inputs[k].value)
    ensures |states| == |inputs| + 1 && HoldsOfAll(P, states[n])
  {
    hide IsRun, Next, IssuedInstr, HoldsOfAll, NextIs;
    StartOfRun(l, a, inputs, states);
    if n == 0 {
      HoldsOfNothing(P, l, a);
    } else {
      IssuedAreInputs(l, a, inputs, states, n - 1, P);
      CycleOfRun(l, a, inputs, states, n - 1);
      NextRecorded(states[n - 1], inputs[n - 1], states[n]);
      HoldsOfNext(P, states[n - 1], inputs[n - 1], states[n]);
    }
  }

  lemma HoldsOfNothing(P: Instr -> bool, l: LongLatency, a: Arch)
    ensures HoldsOfAll(P, Reset(l, a))
  {
  }

  lemma DeliveredAreFetched(l: LongLatency, a: Arch, code: Code, start: Addr, fetches: seq<FetchPorts>,
                            inputs: seq<Option<Instr>>, states: seq<Core>, k: nat)
    requires IsFullRun(l, a, code, start, fetches, inputs, states) && k < |inputs| && inputs[k].Some?
    ensures IsFetched(code, inputs[k].value)
  {
    hide *;
    FullParts(l, a, code, start, fetches, inputs, states);
    FullCycleOf(l, a, code, start, fetches, inputs, states, k);
    NothingDelivered(fetches[0], start);
    if k > 0 {
      FullCycleOf(l, a, code, start, fetches, inputs, states, k - 1);
      SentIsFetched(code, fetches[k - 1], states[k - 1], fetches[k]);
    }
  }

  lemma NothingDelivered(f: FetchPorts, start: Addr)
    requires f == RESET_FETCH.(external := Some(start))
    ensures f.toDecode.None?
  {
  }

  lemma SentIsFetched(code: Code, f: FetchPorts, s: Core, f': FetchPorts)
    requires FetchCycle(code, f, s, f') && f'.toDecode.Some?
    ensures IsFetched(code, f'.toDecode.value)
  {
    hide IsFetched, Selected, Stalls;
  }

  /** All that is issued comes from the program. */
  lemma IssuedAreFetched(l: LongLatency, a: Arch, code: Code, start: Addr, fetches: seq<FetchPorts>,
                         inputs: seq<Option<Instr>>, states: seq<Core>, n: nat, t: int)
    requires IsFullRun(l, a, code, start, fetches, inputs, states) && n <= |inputs| && |states| == |inputs| + 1
    requires Alive(Surviving(states[n]), t)
    ensures IsFetched(code, Surviving(states[n])[t].value)
  {
    hide IsFetched, IsFullRun;
    forall k | 0 <= k < |inputs| && inputs[k].Some?
      ensures IsFetched(code, inputs[k].value)
    {
      DeliveredAreFetched(l, a, code, start, fetches, inputs, states, k);
    }
    FullParts(l, a, code, start, fetches, inputs, states);
    IssuedAreInputs(l, a, inputs, states, n, i => IsFetched(code, i));
    hide IsRun, Surviving;
    SurvivingSlot(states[n], t);
  }

  /** The Branch stage sends fetch where the branch in it goes. */
  lemma BranchSends(s: Core, h: History, w: Work)
    requires FlowAt(s, h, w)
    ensures Branch(s).miss ==>
              s.toBranch.Some? && s.toBranch.value.res.newPC == w.executed(s.cycle - 2).res.newPC
    ensures forall m :: m in s.misses ==> m < s.cycle
  {
    hide IssueOk, LongUnitOk, WritebackInputsOk, CommitOk, AccessOk, LatencyOk, FlushOk, UntracedOk, InOrder;
    hide BranchMisprediction;
  }

  /** No redirect of decode that could be the last word is delayed in the run. */
  ghost predicate NoRedirectWaits(inputs: seq<Option<Instr>>, states: seq<Core>, n: nat)
    requires n <= |inputs| && |states| == |inputs| + 1
  {
    forall k :: 0 <= k < n ==> RedirectsAtOnce(states[k], inputs[k])
  }

  lemma {:induction false} ReachableFront(l: LongLatency, a: Arch, code: Code, start: Addr, fetches: seq<FetchPorts>,
                                          inputs: seq<Option<Instr>>, states: seq<Core>, n: nat)
    requires IsFullRun(l, a, code, start, fetches, inputs, states) && n <= |inputs|
    requires |states| == |inputs| + 1 == |fetches| && NoRedirectWaits(inputs, states, n)
    ensures FrontAt(fetches[n], states[n], Surviving(states[n]), WorkOf(states), start)
    ensures n == 0 ==> Starts(fetches[n], states[n], Surviving(states[n]), start)
  {
    hide *;
    FullParts(l, a, code, start, fetches, inputs, states);
    if n == 0 {
      StartOfRun(l, a, inputs, states);
      FirstFront(l, a, start, fetches[0], WorkOf(states));
    } else {
      var s, s' := states[n - 1], states[n];
      FullCycleOf(l, a, code, start, fetches, inputs, states, n - 1);
      RedirectsUnfold(inputs, states, n);
      ReachableFront(l, a, code, start, fetches, inputs, states, n - 1);
      ReachableFlow(l, a, inputs, states, n - 1);
      BranchSends(s, Surviving(s), WorkOf(states));
      CycleOfRun(l, a, inputs, states, n - 1);
      CycleHistories(l, a, inputs, states, n - 1);
      StepKeepsFront(code, fetches[n - 1], s, fetches[n], s', Surviving(s), Surviving(s'), WorkOf(states), start);
    }
  }

  lemma RedirectsUnfold(inputs: seq<Option<Instr>>, states: seq<Core>, n: nat)
    requires 0 < n <= |inputs| && |states| == |inputs| + 1 && NoRedirectWaits(inputs, states, n)
    ensures NoRedirectWaits(inputs, states, n - 1) && RedirectsAtOnce(states[n - 1], inputs[n - 1])
  {
    hide RedirectsAtOnce;
  }
}
