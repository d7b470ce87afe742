/** What happens to a redirect of decode that is delayed by a stall: the instruction at its target is
    lost. Fetch is redirected in the cycle the jump arrives, but decode drops what fetch delivers in
    the cycle after the jump is issued, which by then is the instruction at the target. */
module LostRedirect {
  import opened Operations
  import opened Options
  import opened FuncSim
  import opened Scoreboard
  import opened Pipeline
  import opened Branching
  import opened FetchUnit
  import opened Timeline
  import opened Invariant
  import opened StepRecord
  import opened StepData
  import opened StepStages
  import opened Flow
  import opened Timing
  import opened Theorems
  import opened FrontEnd
  import opened ControlFlow

  /** The jump `i` waits in decode, and its target in fetch. */
  ghost predicate TargetWaits(f: FetchPorts, s: Core, i: Instr) {
    && s.stalled == Some(i) && !s.flushAll && !s.flushFetch
    && Selected(f) == Some(i.decodedTarget)
  }

  lemma Arrives(code: Code, f: FetchPorts, s: Core, f': FetchPorts, s': Core, i: Instr)
    requires FetchCycle(code, f, s, f') && s.Shaped() && s' == Next(s, f.toDecode) && s'.flushAll == Branch(s).miss
    requires DecodeInput(s, f.toDecode) == Some(i) && s.stalled.None? && !Branch(s).miss
    requires DecodeMisprediction(i) && Stalls(s, f.toDecode) && Selected(f).Some?
    ensures TargetWaits(f', s', i)
  {
    hide Next, Branch, IsStall, DecodeMisprediction, Selected, FetchCycle;
    DecodeKept(s, f.toDecode);
    SelectedNext(code, f, s, f');
  }

  lemma Waits(code: Code, f: FetchPorts, s: Core, f': FetchPorts, s': Core, i: Instr)
    requires FetchCycle(code, f, s, f') && s.Shaped() && s' == Next(s, f.toDecode) && s'.flushAll == Branch(s).miss
    requires TargetWaits(f, s, i) && !Branch(s).miss && Stalls(s, f.toDecode)
    ensures TargetWaits(f', s', i)
  {
    hide Next, Branch, IsStall, DecodeMisprediction, Selected, FetchCycle;
    DecodeKept(s, f.toDecode);
    SelectedNext(code, f, s, f');
  }

  /** The jump is issued: the instruction at the target is in the port to decode, which is about to be
      flushed, and fetch goes on behind it. */
  ghost predicate TargetGoes(f: FetchPorts, s: Core, i: Instr) {
    && s.stalled.None? && !s.flushAll && s.flushFetch
    && f.toDecode.Some? && f.toDecode.value.pc == i.decodedTarget
    && Selected(f) == Some(f.toDecode.value.bp.target)
  }

  lemma Goes(code: Code, f: FetchPorts, s: Core, f': FetchPorts, s': Core, i: Instr)
    requires FetchCycle(code, f, s, f') && s.Shaped() && s' == Next(s, f.toDecode) && s'.flushAll == Branch(s).miss
    requires TargetWaits(f, s, i) && !Branch(s).miss && !Stalls(s, f.toDecode) && DecodeMisprediction(i)
    ensures TargetGoes(f', s', i) && IssuedInstr(s, f.toDecode) == Some(i)
  {
    hide Next, Branch, IsStall, DecodeMisprediction, Selected, FetchCycle, IssuedInstr;
    DecodeKept(s, f.toDecode);
    SelectedNext(code, f, s, f');
  }

  lemma Drops(code: Code, f: FetchPorts, s: Core, f': FetchPorts, s': Core, i: Instr)
    requires FetchCycle(code, f, s, f') && s.Shaped() && s' == Next(s, f.toDecode) && s'.flushAll == Branch(s).miss
    requires TargetGoes(f, s, i) && !Branch(s).miss
    ensures DecodeInput(s, f.toDecode).None?
    ensures f'.toDecode.Some? && DecodeInput(s', f'.toDecode) == f'.toDecode
    ensures f'.toDecode.value.pc == f.toDecode.value.bp.target
  {
    hide Next, Branch, IsStall, DecodeMisprediction, Selected, FetchCycle;
    DecodeKept(s, f.toDecode);
    SelectedNext(code, f, s, f');
  }

  /** In cycles k to m - 1 the jump `i`, arrived in cycle `k`, stalls; it is issued in cycle `m`. */
  ghost predicate StallsUntil(inputs: seq<Option<Instr>>, states: seq<Core>, i: Instr, k: nat, m: nat)
    requires k < m < |inputs| && |states| == |inputs| + 1
  {
    && DecodeInput(states[k], inputs[k]) == Some(i) && states[k].stalled.None?
    && (forall j :: k <= j < m ==> Stalls(states[j], inputs[j]))
    && !Stalls(states[m], inputs[m])
  }

  ghost predicate NoMisses(states: seq<Core>, k: nat, m: nat)
    requires m < |states|
  {
    forall j :: k <= j <= m ==> !Branch(states[j]).miss
  }

  lemma FullStep(l: LongLatency, a: Arch, code: Code, start: Addr, fetches: seq<FetchPorts>, inputs: seq<Option<Instr>>,
                 states: seq<Core>, j: nat)
    requires IsFullRun(l, a, code, start, fetches, inputs, states) && j < |inputs|
    ensures |states| == |inputs| + 1 == |fetches|
    ensures var s, s', f := states[j], states[j + 1], fetches[j];
            && inputs[j] == f.toDecode && FetchCycle(code, f, s, fetches[j + 1])
            && s.Shaped() && s' == Next(s, f.toDecode) && s'.flushAll == Branch(s).miss
  {
    hide *;
    FullParts(l, a, code, start, fetches, inputs, states);
    FullCycleOf(l, a, code, start, fetches, inputs, states, j);
    CycleOfRun(l, a, inputs, states, j);
    NextParts(states[j], inputs[j], states[j + 1]);
  }

  lemma {:induction false} WaitsUntil(l: LongLatency, a: Arch, code: Code, start: Addr, fetches: seq<FetchPorts>,
                                      inputs: seq<Option<Instr>>, states: seq<Core>, i: Instr, k: nat, m: nat, n: nat)
    requires IsFullRun(l, a, code, start, fetches, inputs, states) && |states| == |inputs| + 1 == |fetches|
    requires k < n <= m < |inputs| && StallsUntil(inputs, states, i, k, m) && NoMisses(states, k, m)
    requires DecodeMisprediction(i) && Selected(fetches[k]).Some?
    ensures TargetWaits(fetches[n], states[n], i)
    decreases n
  {
    hide IsFullRun, Next, Branch, Stalls, DecodeMisprediction, Selected, FetchCycle, TargetWaits, DecodeInput;
    hide Core.Shaped;
    FullStep(l, a, code, start, fetches, inputs, states, n - 1);
    if n == k + 1 {
      Arrives(code, fetches[k], states[k], fetches[n], states[n], i);
    } else {
      WaitsUntil(l, a, code, start, fetches, inputs, states, i, k, m, n - 1);
      Waits(code, fetches[n - 1], states[n - 1], fetches[n], states[n], i);
    }
  }

  lemma {:induction false} AlwaysSelected(l: LongLatency, a: Arch, code: Code, start: Addr, fetches: seq<FetchPorts>,
                                          inputs: seq<Option<Instr>>, states: seq<Core>, n: nat)
    requires IsFullRun(l, a, code, start, fetches, inputs, states) && n <= |inputs|
    ensures |fetches| == |inputs| + 1 && Selected(fetches[n]).Some?
  {
    hide *;
    FullParts(l, a, code, start, fetches, inputs, states);
    if n == 0 {
      StartSelected(start);
    } else {
      AlwaysSelected(l, a, code, start, fetches, inputs, states, n - 1);
      FullCycleOf(l, a, code, start, fetches, inputs, states, n - 1);
      SelectedAgain(code, fetches[n - 1], states[n - 1], fetches[n]);
    }
  }

  lemma StartSelected(start: Addr)
    ensures Selected(RESET_FETCH.(external := Some(start))) == Some(start)
  {
  }

  lemma SelectedAgain(code: Code, f: FetchPorts, s: Core, f': FetchPorts)
    requires FetchCycle(code, f, s, f') && Selected(f).Some?
    ensures Selected(f').Some?
  {
    hide Stalls;
    SelectedNext(code, f, s, f');
  }

  /** When a jump that decode redirects stalls on its arrival in cycle `k` and is issued in cycle `m`,
      and no misprediction of an older branch takes it back meanwhile, the instruction at its target
      arrives in cycle m + 1 and is dropped; decode goes on with what was predicted to follow that
      instruction. So it goes on at the target exactly if that is predicted to follow itself. */
  lemma TargetIsLost(l: LongLatency, a: Arch, code: Code, start: Addr, fetches: seq<FetchPorts>,
                     inputs: seq<Option<Instr>>, states: seq<Core>, i: Instr, k: nat, m: nat)
    requires IsFullRun(l, a, code, start, fetches, inputs, states) && |states| == |inputs| + 1
    requires k < m && m + 2 < |inputs| && StallsUntil(inputs, states, i, k, m) && NoMisses(states, k, m + 1)
    requires DecodeMisprediction(i)
    ensures IssuedInstr(states[m], inputs[m]) == Some(i)
    ensures inputs[m + 1].Some? && inputs[m + 1].value.pc == i.decodedTarget
    ensures DecodeInput(states[m + 1], inputs[m + 1]).None?
    ensures inputs[m + 2].Some? && DecodeInput(states[m + 2], inputs[m + 2]) == inputs[m + 2]
    ensures inputs[m + 2].value.pc == inputs[m + 1].value.bp.target
    ensures inputs[m + 2].value.pc == i.decodedTarget <==> inputs[m + 1].value.bp.target == inputs[m + 1].value.pc
  {
    hide *;
    FewerMisses(states, k, m);
    FullParts(l, a, code, start, fetches, inputs, states);
    AlwaysSelected(l, a, code, start, fetches, inputs, states, k);
    WaitsUntil(l, a, code, start, fetches, inputs, states, i, k, m, m);
    IssuedThen(inputs, states, i, k, m);
    FullStep(l, a, code, start, fetches, inputs, states, m);
    FullStep(l, a, code, start, fetches, inputs, states, m + 1);
    FullCycleOf(l, a, code, start, fetches, inputs, states, m + 2);
    Goes(code, fetches[m], states[m], fetches[m + 1], states[m + 1], i);
    Drops(code, fetches[m + 1], states[m + 1], fetches[m + 2], states[m + 2], i);
    TargetThere(fetches[m + 1], states[m + 1], i);
  }

  lemma TargetThere(f: FetchPorts, s: Core, i: Instr)
    requires TargetGoes(f, s, i)
    ensures f.toDecode.Some? && f.toDecode.value.pc == i.decodedTarget
  {
    hide Selected;
  }

  lemma FewerMisses(states: seq<Core>, k: nat, m: nat)
    requires k <= m && m + 1 < |states| && NoMisses(states, k, m + 1)
    ensures NoMisses(states, k, m) && !Branch(states[m]).miss && !Branch(states[m + 1]).miss
  {
    hide Branch;
  }

  lemma IssuedThen(inputs: seq<Option<Instr>>, states: seq<Core>, i: Instr, k: nat, m: nat)
    requires k < m < |inputs| && |states| == |inputs| + 1 && StallsUntil(inputs, states, i, k, m)
    ensures !Stalls(states[m], inputs[m])
  {
    hide Stalls, DecodeInput;
  }

  // A program that loses an instruction

  const NO_ENTRY := BPInterface(false, 0, false)
  const TARGET: Addr := 0x100

  /** mult x0, x0; j TARGET; and instructions without effect everywhere else. */
  function JumpAfterMult(pc: Addr): Instr {
    if pc == 0 then Instr(OutDivmult, 0, 0, 0, 0, 0, NO_ENTRY, pc, pc)
    else if pc == 4 then Instr(OutJJump, 0, 0, 0, 0, TARGET, NO_ENTRY, pc, pc)
    else Instr(OutArithm, 0, 0, 0, 0, 0, NO_ENTRY, pc, pc)
  }

  /** An architecture that executes them so: the encoding of an instruction is its address. */
  ghost predicate ExecutesIt(isa: Isa) {
    forall code: nat, x: Word, y: Word ::
      isa.executor(code, x, y) == Result(0, 0, ALL_ONES, false, if code == 4 then TARGET else code + 4, 0)
  }

  /** A long unit of latency 3, which is the default, and a predictor that knows nothing. */
  const LATENCY: LongLatency := 3

  ghost predicate Unpredicted(i: Instr) {
    i == JumpAfterMult(i.pc).(bp := i.bp) && !i.bp.isHit && !i.bp.isTaken && i.bp.target == i.pc + 4
  }

  ghost predicate IsProgram(code: Code) {
    forall pc: Addr :: code(pc) == JumpAfterMult(pc)
  }

  ghost predicate ToyRun(a: Arch, code: Code, fetches: seq<FetchPorts>, inputs: seq<Option<Instr>>, states: seq<Core>) {
    && ExecutesIt(a.isa) && IsProgram(code) && IsFullRun(LATENCY, a, code, 0, fetches, inputs, states) && |inputs| == 8
    && forall k :: 0 <= k < 8 && inputs[k].Some? ==> !inputs[k].value.bp.isHit
  }

  lemma FetchedIsUnpredicted(code: Code, i: Instr)
    requires IsProgram(code) && IsFetched(code, i) && !i.bp.isHit
    ensures Unpredicted(i)
  {
  }

  lemma ToyParts(a: Arch, code: Code, fetches: seq<FetchPorts>, inputs: seq<Option<Instr>>, states: seq<Core>)
    requires ToyRun(a, code, fetches, inputs, states)
    ensures IsFullRun(LATENCY, a, code, 0, fetches, inputs, states) && |inputs| == 8
    ensures IsRun(LATENCY, a, inputs, states) && |states| == 9 == |fetches|
    ensures fetches[0] == RESET_FETCH.(external := Some(0)) && states[0] == Reset(LATENCY, a)
    ensures forall k :: 0 <= k < 8 && inputs[k].Some? ==> Unpredicted(inputs[k].value)
  {
    hide IsFullRun, IsRun, Reset, IsFetched, Unpredicted, IsProgram, ExecutesIt;
    FullParts(LATENCY, a, code, 0, fetches, inputs, states);
    StartOfRun(LATENCY, a, inputs, states);
    forall k | 0 <= k < 8 && inputs[k].Some?
      ensures Unpredicted(inputs[k].value)
    {
      DeliveredAreFetched(LATENCY, a, code, 0, fetches, inputs, states, k);
      FetchedIsUnpredicted(code, inputs[k].value);
    }
  }

  lemma JumpIsRight(x: Op)
    requires Unpredicted(x.instr)
    ensures !BranchMisprediction(x)
  {
  }

  lemma BranchIsIssued(s: Core, h: History, w: Work)
    requires FlowAt(s, h, w) && (forall t :: Alive(h, t) ==> Unpredicted(Slot(h, t).value))
    ensures !Branch(s).miss
  {
    hide BranchMisprediction, Unpredicted, IssueOk, LongUnitOk, WritebackInputsOk, CommitOk, AccessOk, LatencyOk;
    hide FlushOk;
    hide UntracedOk, InOrder;
    if !s.flushAll && s.toBranch.Some? {
      assert Unpredicted(Slot(h, s.cycle - 2).value);
      JumpIsRight(s.toBranch.value);
    }
  }

  lemma NeverMisses(a: Arch, code: Code, fetches: seq<FetchPorts>, inputs: seq<Option<Instr>>, states: seq<Core>,
                    n: nat)
    requires ToyRun(a, code, fetches, inputs, states) && n <= 8
    ensures |states| == 9 && !Branch(states[n]).miss
  {
    hide ToyRun, IsFullRun, IsRun, Reset, Unpredicted, Branch, HoldsOfAll, FlowAt, Works, Surviving;
    ToyParts(a, code, fetches, inputs, states);
    IssuedAreInputs(LATENCY, a, inputs, states, n, i => Unpredicted(i));
    ReachableFlow(LATENCY, a, inputs, states, n);
    SurvivorsHold(i => Unpredicted(i), states[n]);
    BranchIsIssued(states[n], Surviving(states[n]), WorkOf(states));
  }

  lemma SurvivorsHold(P: Instr -> bool, s: Core)
    requires HoldsOfAll(P, s)
    ensures forall t :: Alive(Surviving(s), t) ==> P(Slot(Surviving(s), t).value)
  {
    forall t | Alive(Surviving(s), t)
      ensures P(Slot(Surviving(s), t).value)
    {
      SurvivingSlot(s, t);
    }
  }

  /** What a cycle of such a run starts with: nothing is in flight that decode could wait for, except
      that the last issue may hold back write-back. */
  ghost predicate ToyAt(s: Core, stalled: Option<Instr>, flushFetch: bool, notify: Option<Instr>, latency: nat) {
    && s.Shaped() && !s.flushAll && s.longLatency == LATENCY
    && s.stalled == stalled && s.flushFetch == flushFetch && s.notify == notify
    && s.bypass.scoreboard[ZERO] == UNTRACED && s.bypass.operationLatency == latency
  }

  /** How far the write-back of the last issue is from decode. */
  function Ahead(notify: Option<Instr>, latency: nat): nat {
    if notify.Some? then Latency(notify.value, LATENCY) else if latency > 0 then latency - 1 else 0
  }

  lemma ZeroUntraced(s: Core)
    requires !s.flushAll && s.bypass.scoreboard[ZERO] == UNTRACED
    ensures BypassInDecode(s).scoreboard[ZERO] == UNTRACED
  {
  }

  lemma ToyCycle(s: Core, fetched: Option<Instr>, s': Core, stalled: Option<Instr>, flushFetch: bool,
                 notify: Option<Instr>, latency: nat)
    requires ToyAt(s, stalled, flushFetch, notify, latency) && s' == Next(s, fetched) && !Branch(s).miss
    requires NextIs(s, fetched, s')
    requires DecodeInput(s, fetched).Some? ==> Unpredicted(DecodeInput(s, fetched).value)
    ensures var input, ahead := DecodeInput(s, fetched), Ahead(notify, latency);
            var stalls := input.Some? && Latency(input.value, LATENCY) < ahead && 1 < ahead;
            && Stalls(s, fetched) == stalls
            && IssuedInstr(s, fetched) == (if stalls then None else input)
            && ToyAt(s', if stalls then input else None,
                     input.Some? && !stalls && DecodeMisprediction(input.value),
                     if stalls then None else input, ahead)
  {
    hide Next, Branch, IssuedInstr, DecodeMisprediction, Latency, NextIs, BypassInDecode, DecodeInput;
    NextParts(s, fetched, s');
    DecodeKept(s, fetched);
    CounterInDecode(s);
    ZeroUntraced(s);
    NotifiesIssue(s, fetched, s');
  }

  lemma NotifiesIssue(s: Core, fetched: Option<Instr>, s': Core)
    requires NextIs(s, fetched, s')
    ensures s'.notify == IssuedInstr(s, fetched)
  {
    hide Branch, Decode;
  }

  lemma ToyInstr(i: Instr)
    requires Unpredicted(i)
    ensures i.pc == 0 ==> Latency(i, LATENCY) == 3
    ensures i.pc == 4 ==> Latency(i, LATENCY) == 2 && i.decodedTarget == TARGET && i.IsJump()
    ensures i.pc > 4 ==> Latency(i, LATENCY) == 1
    ensures DecodeMisprediction(i) <==> i.pc == 4
    ensures i.bp.target == i.pc + 4
  {
  }

  lemma ToyStep(a: Arch, code: Code, fetches: seq<FetchPorts>, inputs: seq<Option<Instr>>, states: seq<Core>,
                c: nat, stalled: Option<Instr>, flushFetch: bool, notify: Option<Instr>, latency: nat)
    requires ToyRun(a, code, fetches, inputs, states) && c < 8 && |states| == 9 == |fetches|
    requires ToyAt(states[c], stalled, flushFetch, notify, latency)
    requires stalled.Some? ==> Unpredicted(stalled.value)
    ensures inputs[c] == fetches[c].toDecode && (inputs[c].Some? ==> Unpredicted(inputs[c].value))
    ensures var s, fetched := states[c], inputs[c];
            var input, ahead := DecodeInput(s, fetched), Ahead(notify, latency);
            var stalls := input.Some? && Latency(input.value, LATENCY) < ahead && 1 < ahead;
            && input == (if flushFetch then None else if stalled.Some? then stalled else fetched)
            && s.stalled == stalled
            && Stalls(s, fetched) == stalls
            && IssuedInstr(s, fetched) == (if stalls then None else input)
            && ToyAt(states[c + 1], if stalls then input else None,
                     input.Some? && !stalls && DecodeMisprediction(input.value),
                     if stalls then None else input, ahead)
  {
    hide *;
    ToyParts(a, code, fetches, inputs, states);
    NeverMisses(a, code, fetches, inputs, states, c);
    FullStep(LATENCY, a, code, 0, fetches, inputs, states, c);
    CycleOfRun(LATENCY, a, inputs, states, c);
    ToyInput(states[c], inputs[c], stalled, flushFetch, notify, latency);
    ToyCycle(states[c], inputs[c], states[c + 1], stalled, flushFetch, notify, latency);
  }

  lemma ToyInput(s: Core, fetched: Option<Instr>, stalled: Option<Instr>, flushFetch: bool, notify: Option<Instr>,
                 latency: nat)
    requires ToyAt(s, stalled, flushFetch, notify, latency)
    ensures DecodeInput(s, fetched) == if flushFetch then None else if stalled.Some? then stalled else fetched
    ensures s.stalled == stalled
  {
  }

  /** While decode is not redirected and does not stall, fetch goes on from address to address. */
  lemma ToyFetch(a: Arch, code: Code, fetches: seq<FetchPorts>, inputs: seq<Option<Instr>>, states: seq<Core>, c: nat)
    requires ToyRun(a, code, fetches, inputs, states) && c < 7 && |states| == 9 == |fetches|
    requires !Stalls(states[c], inputs[c]) && DecodeTarget(states[c], inputs[c]).None? && Selected(fetches[c]).Some?
    ensures inputs[c + 1].Some? && inputs[c + 1].value.pc == Selected(fetches[c]).value
    ensures Selected(fetches[c + 1]) == Some(inputs[c + 1].value.bp.target)
  {
    hide *;
    ToyParts(a, code, fetches, inputs, states);
    NeverMisses(a, code, fetches, inputs, states, c);
    FullStep(LATENCY, a, code, 0, fetches, inputs, states, c);
    FullCycleOf(LATENCY, a, code, 0, fetches, inputs, states, c + 1);
    NoBranchTarget(states[c]);
    SelectedNext(code, fetches[c], states[c], fetches[c + 1]);
  }

  lemma NoBranchTarget(s: Core)
    requires !Branch(s).miss
    ensures BranchTarget(s).None?
  {
    hide Branch;
  }

  lemma NoDecodeTarget(s: Core, fetched: Option<Instr>)
    requires DecodeInput(s, fetched).Some? ==> !DecodeMisprediction(DecodeInput(s, fetched).value)
    ensures DecodeTarget(s, fetched).None?
  {
    hide DecodeMisprediction, DecodeInput;
  }

  lemma ToyStart(a: Arch, code: Code, fetches: seq<FetchPorts>, inputs: seq<Option<Instr>>, states: seq<Core>)
    requires ToyRun(a, code, fetches, inputs, states)
    ensures |inputs| == 8 && |states| == 9 == |fetches| && inputs[0].None? && Selected(fetches[0]) == Some(0)
    ensures ToyAt(states[0], None, false, None, 0)
  {
    hide IsFullRun, IsRun;
    ToyParts(a, code, fetches, inputs, states);
    FullCycleOf(LATENCY, a, code, 0, fetches, inputs, states, 0);
  }

  /** The first cycles: mult is issued in cycle 1; the jump arrives in cycle 2, stalls, and is issued in
      cycle 3; in cycle 5 decode goes on behind the instruction at the target. */
  lemma ToyIssues(a: Arch, code: Code, fetches: seq<FetchPorts>, inputs: seq<Option<Instr>>, states: seq<Core>)
    requires ToyRun(a, code, fetches, inputs, states) && |states| == 9
    ensures IssuedInstr(states[0], inputs[0]).None? && IssuedInstr(states[2], inputs[2]).None?
    ensures var i := IssuedInstr(states[1], inputs[1]); i.Some? && Unpredicted(i.value) && i.value.pc == 0
    ensures var i := IssuedInstr(states[3], inputs[3]); i.Some? && Unpredicted(i.value) && i.value.pc == 4
    ensures IssuedInstr(states[4], inputs[4]).None?
    ensures var i := IssuedInstr(states[5], inputs[5]); i.Some? && Unpredicted(i.value) && i.value.pc == TARGET + 4
    ensures !RedirectsAtOnce(states[2], inputs[2])
  {
    hide *;
    ToyStart(a, code, fetches, inputs, states);
    ToyStep(a, code, fetches, inputs, states, 0, None, false, None, 0);
    NoDecodeTarget(states[0], inputs[0]);
    ToyFetch(a, code, fetches, inputs, states, 0);
    AheadIs(None, 0);
    ToyStep(a, code, fetches, inputs, states, 1, None, false, None, 0);
    var mult := inputs[1].value;
    ToyInstr(mult);
    NoDecodeTarget(states[1], inputs[1]);
    ToyFetch(a, code, fetches, inputs, states, 1);
    AheadIs(Some(mult), 0);
    ToyStep(a, code, fetches, inputs, states, 2, None, false, Some(mult), 0);
    var jump := inputs[2].value;
    ToyInstr(jump);
    AheadIs(None, 3);
    ToyStep(a, code, fetches, inputs, states, 3, Some(jump), false, None, 3);
    ToyLoses(a, code, fetches, inputs, states, jump);
    AheadIs(Some(jump), 2);
    ToyStep(a, code, fetches, inputs, states, 4, None, true, Some(jump), 2);
    AheadIs(None, 2);
    ToyInstr(inputs[4].value);
    ToyStep(a, code, fetches, inputs, states, 5, None, false, None, 2);
    ToyInstr(inputs[5].value);
    NotAtOnce(states[2], inputs[2], jump);
  }

  lemma AheadIs(notify: Option<Instr>, latency: nat)
    ensures Ahead(notify, latency)
         == if notify.Some? then Latency(notify.value, LATENCY) else if latency > 0 then latency - 1 else 0
  {
  }

  lemma NotAtOnce(s: Core, fetched: Option<Instr>, jump: Instr)
    requires Unpredicted(jump) && jump.pc == 4 && DecodeInput(s, fetched) == Some(jump) && s.stalled.None?
    requires Stalls(s, fetched)
    ensures !RedirectsAtOnce(s, fetched)
  {
    hide Stalls;
  }

  lemma ToyLoses(a: Arch, code: Code, fetches: seq<FetchPorts>, inputs: seq<Option<Instr>>, states: seq<Core>,
                 jump: Instr)
    requires ToyRun(a, code, fetches, inputs, states) && |states| == 9
    requires DecodeInput(states[2], inputs[2]) == Some(jump) && states[2].stalled.None?
    requires Stalls(states[2], inputs[2]) && !Stalls(states[3], inputs[3])
    requires DecodeMisprediction(jump) && jump.decodedTarget == TARGET
    ensures inputs[4].Some? && inputs[4].value.pc == TARGET
    ensures inputs[5].Some? && inputs[5].value.pc == inputs[4].value.bp.target
  {
    hide ToyRun, IsFullRun, IsRun, Reset, Unpredicted, Branch, Stalls, DecodeInput, IssuedInstr, DecodeMisprediction;
    ToyParts(a, code, fetches, inputs, states);
    NeverMisses(a, code, fetches, inputs, states, 2);
    NeverMisses(a, code, fetches, inputs, states, 3);
    NeverMisses(a, code, fetches, inputs, states, 4);
    TargetIsLost(LATENCY, a, code, 0, fetches, inputs, states, jump, 2, 3);
  }

  lemma IssuedAt(l: LongLatency, a: Arch, inputs: seq<Option<Instr>>, states: seq<Core>, n: nat, c: nat)
    requires IsRun(l, a, inputs, states) && c < n <= |inputs|
    ensures |states| == |inputs| + 1 && |states[n].issued| == n
    ensures states[n].issued[c] == IssuedInstr(states[c], inputs[c])
  {
    hide *;
    CycleRecord(inputs, states, l, a, c);
    IssuedPrefix(l, a, inputs, states, c, c + 1);
    IssuedPrefix(l, a, inputs, states, c + 1, n);
    IssuedPrefix(l, a, inputs, states, n, n);
    assert states[c + 1].issued[c] == IssuedInstr(states[c], inputs[c]);
  }

  lemma NothingTakenBack(a: Arch, code: Code, fetches: seq<FetchPorts>, inputs: seq<Option<Instr>>, states: seq<Core>)
    requires ToyRun(a, code, fetches, inputs, states) && |states| == 9
    ensures states[8].misses == {}
  {
    hide ToyRun, IsFullRun, IsRun, Branch, Reset, Unpredicted;
    ToyParts(a, code, fetches, inputs, states);
    MissesRecorded(LATENCY, a, inputs, states, 8);
    forall f: nat | f in states[8].misses
      ensures false
    {
      NeverMisses(a, code, fetches, inputs, states, f);
    }
  }

  /** What the run has issued by cycle 8: mult, the jump, and what lies behind the target. */
  lemma ToySurvivors(a: Arch, code: Code, fetches: seq<FetchPorts>, inputs: seq<Option<Instr>>, states: seq<Core>)
    requires ToyRun(a, code, fetches, inputs, states) && |states| == 9
    ensures var s := states[8];
            var h := Surviving(s);
            && |h| == 8 && !TakenBack(s, 5)
            && Slot(h, 5).Some? && Slot(h, 5) == Slot(s.issued, 5)
            && Unpredicted(h[5].value) && h[5].value.pc == TARGET + 4 && LastIssue(h, 5) == 3
            && Slot(h, 3).Some? && Unpredicted(h[3].value) && h[3].value.pc == 4
  {
    hide *;
    ToyParts(a, code, fetches, inputs, states);
    ToyIssues(a, code, fetches, inputs, states);
    NothingTakenBack(a, code, fetches, inputs, states);
    IssuedAt(LATENCY, a, inputs, states, 8, 3);
    IssuedAt(LATENCY, a, inputs, states, 8, 4);
    IssuedAt(LATENCY, a, inputs, states, 8, 5);
    LastIs(states[8]);
  }

  lemma LastIs(s: Core)
    requires |s.issued| == 8 && s.misses == {} && s.issued[3].Some? && s.issued[4].None? && s.issued[5].Some?
    ensures var h := Surviving(s);
            && |h| == 8 && !TakenBack(s, 5)
            && Slot(h, 5) == s.issued[5] == Slot(s.issued, 5) && Slot(h, 3) == s.issued[3] && h[5] == s.issued[5]
            && h[3] == s.issued[3] && LastIssue(h, 5) == 3
  {
    var h := Surviving(s);
    LastIssueIdle(h, 5);
  }

  lemma ToyControl(a: Arch, code: Code, fetches: seq<FetchPorts>, inputs: seq<Option<Instr>>, states: seq<Core>)
    requires ToyRun(a, code, fetches, inputs, states)
    ensures ControlOk(a.isa, code)
  {
    hide IsFullRun;
  }

  lemma DueThere(i: Instr, x: Op)
    requires Unpredicted(i) && i.pc == 4 && Resolves(i, x.res)
    ensures x.res.newPC == TARGET
  {
  }

  lemma LatencyBehind(i: Instr)
    requires Unpredicted(i) && i.pc == TARGET + 4
    ensures Latency(i, LATENCY) == 1
  {
  }

  lemma WrittenAt(s: Core, t: nat) returns (k: nat)
    requires WrittenBackAlready(s, t)
    ensures k < |s.retired| && s.retired[k].op.born == t
  {
    k :| k < |s.retired| && s.retired[k].op.born == t;
  }

  /** The assumption on delayed redirects cannot be dropped. The jump goes to `TARGET`, but what is
      written back after it is the instruction behind the one there; and the run is wrong from then on,
      for no misprediction is found. */
  lemma TargetIsSkipped(a: Arch, code: Code, fetches: seq<FetchPorts>, inputs: seq<Option<Instr>>, states: seq<Core>)
      returns (k: nat)
    requires ToyRun(a, code, fetches, inputs, states)
    ensures |states| == 9 && ControlOk(a.isa, code) && !RedirectsAtOnce(states[2], inputs[2])
    ensures states[8].misses == {}
    ensures 0 < k < |states[8].retired| && !FollowedBy(code, 0, states[8].retired, k)
    ensures states[8].retired[k - 1].op.res.newPC == TARGET
    ensures states[8].retired[k].op.instr.pc == TARGET + 4
  {
    hide *;
    ToyParts(a, code, fetches, inputs, states);
    ToyControl(a, code, fetches, inputs, states);
    ToyIssues(a, code, fetches, inputs, states);
    ToySurvivors(a, code, fetches, inputs, states);
    NothingTakenBack(a, code, fetches, inputs, states);
    var s, w := FlowIn(LATENCY, a, inputs, states, 8);
    var h := Surviving(s);
    SlotIs(h, 5);
    SlotIs(h, 3);
    LatencyBehind(h[5].value);
    WritebackTiming(LATENCY, a, inputs, states, 8);
    k := WrittenAt(s, 5);
    RetiredRecord(s, h, w);
    RetiredMembers(w, h, Committed(s), LATENCY);
    Predecessor(s.retired, w, h, Committed(s), LATENCY, k);
    BornThen(w, h, 5);
    IssuedAreFetched(LATENCY, a, code, 0, fetches, inputs, states, 8, 3);
    SurvivorResolves(LATENCY, a, code, inputs, states, 8, 3);
    Predecessor(s.retired, w, h, Committed(s), LATENCY, k - 1);
    DueThere(h[3].value, Made(w, h, 3));
    NotFollowed(code, s.retired, k);
  }

  lemma SlotIs(h: History, t: nat)
    requires Slot(h, t).Some?
    ensures Alive(h, t) && t < |h| && h[t] == Slot(h, t)
  {
  }

  lemma NotFollowed(code: Code, r: seq<Retirement>, k: nat)
    requires 0 < k < |r| && r[k].op.instr.pc != r[k - 1].op.res.newPC
    ensures !FollowedBy(code, 0, r, k)
  {
  }
}
