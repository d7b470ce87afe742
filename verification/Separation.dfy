/** A condition on the instruction stream alone under which every run is safe: the registers written
    as second destinations are never first destinations of bypassible instructions, and bypassible
    instructions write under the full mask. */
module Separation {
  import opened Operations
  import opened Options
  import opened FuncSim
  import opened Scoreboard
  import opened Pipeline
  import opened Timeline
  import opened Invariant
  import opened StepRecord
  import opened Flow
  import opened Timing
  import opened Theorems

  predicate Fits(i: Instr, first: set<Register>, second: set<Register>) {
    && (i.IsBypassible() && i.dst0 != ZERO ==> i.dst0 in first)
    && (i.dst1 != ZERO ==> i.dst1 in second)
  }

  ghost predicate AllFit(h: History, first: set<Register>, second: set<Register>) {
    forall t :: Slot(h, t).Some? ==> Fits(Slot(h, t).value, first, second)
  }

  ghost predicate OptionFits(o: Option<Instr>, first: set<Register>, second: set<Register>) {
    o.Some? ==> Fits(o.value, first, second)
  }

  /** Instructions in the pipeline and its record all fit. */
  ghost predicate StateFits(s: Core, first: set<Register>, second: set<Register>) {
    OptionFits(s.stalled, first, second) && OptionFits(s.notify, first, second) && AllFit(s.issued, first, second)
  }

  lemma EntryNotBypassible(e: RegisterInfo, h: History, n: int, r: Register, c: int, l: LongLatency,
                           first: set<Register>, second: set<Register>)
    requires EntryTracks(e, h, n, r, c, l) && AllFit(h, first, second) && first !! second && r in second
    ensures !e.isBypassible
  {
    var p := LastWriter(h, n, r);
    if p >= 0 && WritebackCycle(h, p, l) >= c {
      assert Fits(Slot(h, p).value, first, second);
    }
  }

  lemma SurvivorsFit(s: Core, first: set<Register>, second: set<Register>)
    requires AllFit(s.issued, first, second)
    ensures AllFit(Surviving(s), first, second)
  {
    var h := Surviving(s);
    forall t | Slot(h, t).Some?
      ensures Fits(Slot(h, t).value, first, second)
    {
      SurvivingSlot(s, t);
    }
  }

  lemma FitIsSafe(s: Core, h: History, first: set<Register>, second: set<Register>)
    requires h == Surviving(s) && StateFits(s, first, second) && first !! second
    requires !s.flushAll ==> ScoreboardOk(s, h)
    ensures SecondDestinationSafe(s)
  {
    hide EntryTracks, Surviving;
    SurvivorsFit(s, first, second);
    if !s.flushAll && s.notify.Some? && s.notify.value.dst1 != ZERO {
      var i := s.notify.value;
      var r, e := i.dst1, UpdatedEntry(s.bypass.scoreboard[i.dst1], s.longLatency);
      assert EntryTracks(e, h, s.cycle - 1, r, s.cycle, s.longLatency);
      EntryNotBypassible(e, h, s.cycle - 1, r, s.cycle, s.longLatency, first, second);
      OwnFirstDestination(e, i, s.longLatency, first, second);
    }
  }

  /** Should an instruction name one register twice, its first trace does not mark it bypassible. */
  lemma OwnFirstDestination(e: RegisterInfo, i: Instr, l: LongLatency, first: set<Register>, second: set<Register>)
    requires Fits(i, first, second) && first !! second && i.dst1 != ZERO
    ensures i.dst0 == i.dst1 ==> !TracedFirst(e, i, l).isBypassible
  {
  }

  lemma FitKept(s: Core, fetched: Option<Instr>, first: set<Register>, second: set<Register>)
    requires s.Shaped() && StateFits(s, first, second) && OptionFits(fetched, first, second)
    ensures StateFits(Next(s, fetched), first, second)
  {
    hide Next;
    var s' := Next(s, fetched);
    StalledIsInput(s, fetched);
    NextRecord(s, fetched);
    IssueIsNotified(s, fetched);
    forall t | Slot(s'.issued, t).Some?
      ensures Fits(Slot(s'.issued, t).value, first, second)
    {
      assert t < |s.issued| ==> Slot(s'.issued, t) == Slot(s.issued, t);
    }
  }

  // The same for masks

  /** Every bypassible instruction replaces the whole of its first destination. */
  ghost predicate AllReplace(isa: Isa, h: History) {
    forall t :: Slot(h, t).Some? ==> isa.ReplacesFirst(Slot(h, t).value)
  }

  ghost predicate StateReplaces(s: Core, isa: Isa) {
    && (s.stalled.Some? ==> isa.ReplacesFirst(s.stalled.value))
    && AllReplace(isa, s.issued)
  }

  lemma ReplacingKept(s: Core, fetched: Option<Instr>, isa: Isa)
    requires s.Shaped() && StateReplaces(s, isa) && (fetched.Some? ==> isa.ReplacesFirst(fetched.value))
    ensures StateReplaces(Next(s, fetched), isa)
  {
    hide Next;
    var s' := Next(s, fetched);
    StalledIsInput(s, fetched);
    NextRecord(s, fetched);
    IssueIsNotified(s, fetched);
    forall t | Slot(s'.issued, t).Some?
      ensures isa.ReplacesFirst(Slot(s'.issued, t).value)
    {
      assert t < |s.issued| ==> Slot(s'.issued, t) == Slot(s.issued, t);
    }
  }

  lemma SurvivorReplaces(s: Core, a: Arch, p: nat)
    requires AllReplace(a.isa, s.issued) && Alive(Surviving(s), p)
    ensures a.isa.ReplacesFirst(Surviving(s)[p].value)
  {
    hide Surviving;
    SurvivingSlot(s, p);
  }

  lemma SourceReplaced(s: Core, h: History, a: Arch, r: Register)
    requires h == Surviving(s) && |h| == s.cycle && AllReplace(a.isa, s.issued) && Tracked(s, r)
    ensures SourceWhole(s, h, a, r)
  {
    hide Surviving, AllReplace, BypassInDecode, At, Executed, ReplacesWord;
    var p := LastWriter(h, s.cycle, r);
    if p >= 0 && SourceCommand(s, BypassInDecode(s), r).Some? {
      var i := h[p].value;
      SurvivorReplaces(s, a, p);
      assert i.IsBypassible() && i.dst0 == r != ZERO;
      assert Executed(At(a, h, p), i).mask == ALL_ONES by { ExecutedReplaces(At(a, h, p), i); }
      FullMaskReplaces(a, h, p, r);
    }
  }

  lemma ExecutedReplaces(before: Arch, i: Instr)
    requires before.isa.ReplacesFirst(i) && i.IsBypassible() && i.dst0 != ZERO
    ensures Executed(before, i).mask == ALL_ONES
  {
  }

  lemma ReplacingIsSafe(s: Core, h: History, fetched: Option<Instr>, a: Arch)
    requires h == Surviving(s) && |h| == s.cycle && Tracks(s) && AllReplace(a.isa, s.issued)
    ensures ForwardingSafe(s, h, fetched, a)
  {
    hide Surviving, AllReplace, Tracked, SourceWhole, IssuedInstr;
    if IssuedInstr(s, fetched).Some? {
      var i := IssuedInstr(s, fetched).value;
      NotStalled(s, fetched);
      SourceReplaced(s, h, a, i.src0);
      SourceReplaced(s, h, a, i.src1);
    }
  }

  lemma IssueIsNotified(s: Core, fetched: Option<Instr>)
    requires s.Shaped()
    ensures Next(s, fetched).notify == IssuedInstr(s, fetched)
  {
  }

  lemma ResetFits(l: LongLatency, a: Arch, first: set<Register>, second: set<Register>)
    ensures StateFits(Reset(l, a), first, second)
  {
  }

  lemma ResetReplaces(l: LongLatency, a: Arch)
    ensures StateReplaces(Reset(l, a), a.isa)
  {
  }

  lemma InputFits(inputs: seq<Option<Instr>>, k: nat, first: set<Register>, second: set<Register>)
    requires k < |inputs| && AllFit(inputs, first, second)
    ensures OptionFits(inputs[k], first, second)
  {
    assert Slot(inputs, k) == inputs[k];
  }

  lemma InputReplaces(inputs: seq<Option<Instr>>, k: nat, isa: Isa)
    requires k < |inputs| && AllReplace(isa, inputs)
    ensures inputs[k].Some? ==> isa.ReplacesFirst(inputs[k].value)
  {
    assert Slot(inputs, k) == inputs[k];
  }

  /** On a stream of separate destinations no run traces a second destination over a bypassible
      entry, whatever is computed; so its scoreboard tracks every cycle. */
  lemma {:induction false} FitRun(l: LongLatency, a: Arch, inputs: seq<Option<Instr>>, states: seq<Core>, n: nat,
                                  first: set<Register>, second: set<Register>)
    requires IsRun(l, a, inputs, states) && |states| == |inputs| + 1 && n <= |inputs|
    requires AllFit(inputs, first, second) && first !! second
    ensures StateFits(states[n], first, second)
    ensures forall k :: 0 <= k <= n ==> SecondDestinationSafe(states[k])
  {
    hide *;
    if n == 0 {
      StartOfRun(l, a, inputs, states);
      ResetFits(l, a, first, second);
    } else {
      FitRun(l, a, inputs, states, n - 1, first, second);
      CycleOfRun(l, a, inputs, states, n - 1);
      InputFits(inputs, n - 1, first, second);
      FitKept(states[n - 1], inputs[n - 1], first, second);
    }
    TracesAreHarmless(states, n);
    ReachableScoreboard(l, a, inputs, states, n);
    FitIsSafe(states[n], Surviving(states[n]), first, second);
  }

  lemma {:induction false} ReplacingRun(l: LongLatency, a: Arch, inputs: seq<Option<Instr>>, states: seq<Core>, n: nat)
    requires IsRun(l, a, inputs, states) && |states| == |inputs| + 1 && n <= |inputs| && AllReplace(a.isa, inputs)
    ensures StateReplaces(states[n], a.isa)
  {
    hide *;
    if n == 0 {
      StartOfRun(l, a, inputs, states);
      ResetReplaces(l, a);
    } else {
      ReplacingRun(l, a, inputs, states, n - 1);
      CycleOfRun(l, a, inputs, states, n - 1);
      InputReplaces(inputs, n - 1, a.isa);
      ReplacingKept(states[n - 1], inputs[n - 1], a.isa);
    }
  }

  lemma IssuedReplace(s: Core, isa: Isa)
    requires StateReplaces(s, isa)
    ensures AllReplace(isa, s.issued)
  {
  }

  lemma SeparateCycle(l: LongLatency, a: Arch, inputs: seq<Option<Instr>>, states: seq<Core>, k: nat,
                      first: set<Register>, second: set<Register>)
    requires IsRun(l, a, inputs, states) && |states| == |inputs| + 1 && k < |inputs|
    requires AllFit(inputs, first, second) && AllReplace(a.isa, inputs) && first !! second
    ensures SecondDestinationSafe(states[k])
    ensures ForwardingSafe(states[k], Surviving(states[k]), inputs[k], a)
  {
    hide *;
    FitRun(l, a, inputs, states, k, first, second);
    TracesAreHarmless(states, k);
    TracksInCycle(l, a, inputs, states, k);
    ReplacingRun(l, a, inputs, states, k);
    IssuedReplace(states[k], a.isa);
    var s, w := FlowIn(l, a, inputs, states, k);
    ReplacingIsSafe(states[k], Surviving(states[k]), inputs[k], a);
  }

  /** Every run on such a stream is safe, so all the guarantees of the pipeline hold of it. */
  lemma SeparateStreamIsSafe(l: LongLatency, a: Arch, inputs: seq<Option<Instr>>, states: seq<Core>,
                             first: set<Register>, second: set<Register>)
    requires WellFormedRun(l, a, inputs, states)
    requires AllFit(inputs, first, second) && AllReplace(a.isa, inputs) && first !! second
    ensures SafeRun(l, a, inputs, states)
  {
    hide IsRun, AllFit, AllReplace, SecondDestinationSafe, ForwardingSafe, TakenBack, Surviving;
    RunIsRun(l, a, inputs, states);
    forall k | 0 <= k < |inputs|
      ensures CycleSafe(a, inputs, states, k)
    {
      SeparateCycle(l, a, inputs, states, k, first, second);
    }
  }
}
