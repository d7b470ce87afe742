/** Decode never waits for ever: the longest stall is bounded by the latency of the long unit. */
module Liveness {
  import opened Operations
  import opened Options
  import opened FuncSim
  import opened Scoreboard
  import opened Pipeline

  /** A stage after the first one: in the long unit, in Mem or Branch, or in write-back. */
  predicate LaterStage(v: nat, l: LongLatency) {
    1 <= v < l || v == MEM_OR_BRANCH_STAGE || v == WB_STAGE
  }

  /** An entry is in the register file or moves through stages that lead to write-back. */
  predicate Tidy(e: RegisterInfo, l: LongLatency) {
    if e.isTraced
    then LaterStage(e.current.value, l) || (e.current.value == FIRST_EXECUTION.value && LaterStage(e.next.value, l))
    else e.InRF()
  }

  function StagesLeft(v: nat, l: LongLatency): (n: nat)
    requires LaterStage(v, l)
    ensures n <= l
  {
    if v == WB_STAGE then 1 else if v == MEM_OR_BRANCH_STAGE then 2 else l + 1 - v
  }

  /** How many updates it takes until the entry is in the register file. */
  function Left(e: RegisterInfo, l: LongLatency): (n: nat)
    requires Tidy(e, l)
    ensures n <= l + 1
  {
    if !e.isTraced then 0
    else if LaterStage(e.current.value, l) then StagesLeft(e.current.value, l)
    else 1 + StagesLeft(e.next.value, l)
  }

  lemma UpdateAdvances(e: RegisterInfo, l: LongLatency)
    requires Tidy(e, l)
    ensures Tidy(UpdatedEntry(e, l), l)
    ensures Left(UpdatedEntry(e, l), l) == if Left(e, l) > 0 then Left(e, l) - 1 else 0
  {
  }

  lemma TraceTidy(e: RegisterInfo, i: Instr, l: LongLatency)
    ensures Tidy(TracedFirst(e, i, l), l) && Tidy(TracedSecond(e, i), l)
  {
  }

  ghost predicate AllTidy(b: BypassState, l: LongLatency) {
    b.operationLatency <= l && forall r: Register :: Tidy(b.scoreboard[r], l)
  }

  /** Everything issued so far is written back within `k` more updates. */
  ghost predicate DoneWithin(b: BypassState, l: LongLatency, k: nat)
    requires AllTidy(b, l)
  {
    b.operationLatency <= k && forall r: Register :: Left(b.scoreboard[r], l) <= k
  }

  lemma UpdatedDone(b: BypassState, l: LongLatency, k: nat)
    requires AllTidy(b, l) && DoneWithin(b, l, k)
    ensures AllTidy(Updated(b, l), l)
    ensures DoneWithin(Updated(b, l), l, if k > 0 then k - 1 else 0)
  {
    hide Tidy, Left, UpdatedEntry;
    forall r: Register
      ensures Tidy(UpdatedEntry(b.scoreboard[r], l), l)
      ensures Left(UpdatedEntry(b.scoreboard[r], l), l)
           == if Left(b.scoreboard[r], l) > 0 then Left(b.scoreboard[r], l) - 1 else 0
    {
      UpdateAdvances(b.scoreboard[r], l);
    }
  }

  lemma TracedDone(b: BypassState, i: Instr, l: LongLatency)
    requires AllTidy(b, l)
    ensures AllTidy(Traced(b, i, l), l)
  {
    hide Tidy, TracedFirst, TracedSecond;
    forall e: RegisterInfo ensures Tidy(TracedFirst(e, i, l), l) && Tidy(TracedSecond(e, i), l) {
      TraceTidy(e, i, l);
    }
  }

  lemma FlushedDone(b: BypassState, l: LongLatency)
    requires AllTidy(b, l)
    ensures AllTidy(Flushed(b), l) && DoneWithin(Flushed(b), l, 0)
  {
  }

  lemma AnyDone(b: BypassState, l: LongLatency)
    requires AllTidy(b, l)
    ensures DoneWithin(b, l, l + 1)
  {
  }

  lemma DecodeTidy(s: Core)
    requires AllTidy(s.bypass, s.longLatency)
    ensures AllTidy(BypassInDecode(s), s.longLatency)
  {
    hide AllTidy, Updated, Traced, Flushed, DoneWithin;
    var l: nat := s.longLatency;
    AnyDone(s.bypass, l);
    UpdatedDone(s.bypass, l, l + 1);
    if s.notify.Some? {
      TracedDone(Updated(s.bypass, l), s.notify.value, l);
    }
    FlushedDone(BypassBeforeFlush(s), l);
  }

  /** With everything written back, nothing stalls. */
  lemma NothingToWaitFor(b: BypassState, i: Instr, l: LongLatency)
    requires AllTidy(b, l) && DoneWithin(b, l, 0)
    ensures !IsStall(b, i, l)
  {
    assert Left(b.scoreboard[i.src0], l) == 0 && Left(b.scoreboard[i.src1], l) == 0;
  }

  /** While decode waits, everything on its way comes one update nearer. */
  lemma WaitingHelps(s: Core, fetched: Option<Instr>, k: nat)
    requires s.Shaped() && AllTidy(s.bypass, s.longLatency) && AllTidy(BypassInDecode(s), s.longLatency)
    requires Decode(s, fetched).stalled.Some? && DoneWithin(BypassInDecode(s), s.longLatency, k)
    ensures var s' := Next(s, fetched);
            && AllTidy(BypassInDecode(s'), s'.longLatency)
            && DoneWithin(BypassInDecode(s'), s'.longLatency, if k > 0 then k - 1 else 0)
  {
    hide AllTidy, Updated, Traced, Flushed, DoneWithin, IsStall, Execute, Mem, Branch, WrittenBack, ReadInstructions;
    var b, l := BypassInDecode(s), s.longLatency;
    UpdatedDone(b, l, k);
    FlushedDone(Updated(b, l), l);
    DoneLater(Flushed(Updated(b, l)), l, if k > 0 then k - 1 else 0);
  }

  lemma DoneLater(b: BypassState, l: LongLatency, k: nat)
    requires AllTidy(b, l) && DoneWithin(b, l, 0)
    ensures DoneWithin(b, l, k)
  {
  }

  lemma {:induction false} ReachableTidy(l: LongLatency, a: Arch, inputs: seq<Option<Instr>>, states: seq<Core>, n: nat)
    requires IsRun(l, a, inputs, states) && n <= |inputs|
    ensures states[n].longLatency == l && AllTidy(states[n].bypass, l)
  {
    hide AllTidy, BypassInDecode, Next, IsStall, IsCycle;
    if n == 0 {
      ResetTidy(l, a);
    } else {
      ReachableTidy(l, a, inputs, states, n - 1);
      CycleOf(inputs, states, n - 1);
      DecodeTidy(states[n - 1]);
    }
  }

  lemma ResetTidy(l: LongLatency, a: Arch)
    ensures AllTidy(Reset(l, a).bypass, l) && Reset(l, a).longLatency == l
  {
  }

  lemma CycleOf(inputs: seq<Option<Instr>>, states: seq<Core>, k: nat)
    requires k < |inputs| && |states| == |inputs| + 1 && IsCycle(inputs, states, k)
    ensures states[k].Shaped() && states[k + 1] == Next(states[k], inputs[k])
    ensures states[k + 1].longLatency == states[k].longLatency && states[k + 1].bypass == BypassInDecode(states[k])
    ensures states[k + 1].stalled == Decode(states[k], inputs[k]).stalled
    ensures states[k + 1].flushFetch ==> states[k + 1].stalled.None?
  {
    hide IsStall, Execute, Mem, Branch, WrittenBack, ReadInstructions, BypassInDecode;
  }

  /** Decode issues the instruction in this cycle, or a flush discards it. */
  predicate Leaves(s: Core, fetched: Option<Instr>, i: Instr)
  {
    s.flushAll || (var d := Decode(s, fetched); d.issue.Some? && d.issue.value.instr == i)
  }

  lemma {:induction false} HeldFor(l: LongLatency, a: Arch, inputs: seq<Option<Instr>>, states: seq<Core>, n: nat,
                                   i: Instr, k: nat)
    requires IsRun(l, a, inputs, states) && n + k < |inputs|
    requires DecodeInput(states[n], inputs[n]) == Some(i)
    requires AllTidy(BypassInDecode(states[n]), states[n].longLatency) && states[n].longLatency == l
    requires DoneWithin(BypassInDecode(states[n]), l, k)
    ensures exists m :: n <= m <= n + k && Leaves(states[m], inputs[m], i)
    decreases k
  {
    hide AllTidy, DoneWithin, BypassInDecode, Next, IsStall;
    assert IsCycle(inputs, states, n);
    CycleOf(inputs, states, n);
    var s := states[n];
    var d := Decode(s, inputs[n]);
    if IsStall(BypassInDecode(s), i, l) {
      if k == 0 {
        NothingToWaitFor(BypassInDecode(s), i, l);
      } else {
        ReachableTidy(l, a, inputs, states, n);
        WaitingHelps(s, inputs[n], k);
        assert d.stalled == Some(i);
        if states[n + 1].flushAll {
          assert Leaves(states[n + 1], inputs[n + 1], i);
        } else {
          HeldFor(l, a, inputs, states, n + 1, i, k - 1);
        }
      }
    } else {
      assert Leaves(s, inputs[n], i);
    }
  }

  /** In every run, an instruction that reaches decode leaves it within latency + 2 cycles. */
  lemma StallsAreBounded(l: LongLatency, a: Arch, inputs: seq<Option<Instr>>, states: seq<Core>, n: nat, i: Instr)
    requires IsRun(l, a, inputs, states) && n + l + 1 < |inputs|
    requires DecodeInput(states[n], inputs[n]) == Some(i)
    ensures exists m :: n <= m <= n + l + 1 && Leaves(states[m], inputs[m], i)
  {
    hide AllTidy, DoneWithin, BypassInDecode, Next, IsStall, Leaves, DecodeInput;
    ReachableTidy(l, a, inputs, states, n);
    DecodeTidy(states[n]);
    AnyDone(BypassInDecode(states[n]), l);
    HeldFor(l, a, inputs, states, n, i, l + 1);
  }
}
