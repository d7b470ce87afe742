/** When instructions are issued and written back, by the kind of operation: decode waits exactly as
    long as an operand is neither forwarded nor in the register file, or write-back would come out of
    order. */
module IssueTiming {
  import opened Operations
  import opened Options
  import opened FuncSim
  import opened Scoreboard
  import opened Pipeline
  import opened Timeline
  import opened Invariant
  import opened StepRecord
  import opened StepStages
  import opened Flow
  import opened Timing
  import opened FrontEnd

  /** The cycles from issue to write-back. */
  function WritebackAge(op: OperationType, l: LongLatency): nat {
    match op
    case OutDivmult => l + 1
    case OutRAccum => l + 1
    case OutRSubtr => l + 1
    case OutLoad => 3
    case OutLoadu => 3
    case OutPartialLoad => 3
    case OutStore => 3
    case OutTrap => 3
    case OutBranch => 3
    case OutBranchLikely => 3
    case OutJJump => 3
    case OutRJump => 3
    case _ => 2
  }

  /** The age from which the register `r`, written by `i`, can be an operand: when the first result is
      there to be forwarded; or, when it may still change on its way to the register, and for a second
      result, after write-back. */
  function OperandAge(i: Instr, r: Register, l: LongLatency): nat {
    if r == i.dst1 then WritebackAge(i.op, l) + 1
    else
      match i.op
      case OutRCondm => WritebackAge(i.op, l) + 1
      case OutPartialLoad => WritebackAge(i.op, l) + 1
      case OutRAccum => WritebackAge(i.op, l) + 1
      case OutRSubtr => WritebackAge(i.op, l) + 1
      case OutDivmult => l
      case OutLoad => 2
      case OutLoadu => 2
      case OutBranch => 2
      case OutBranchLikely => 2
      case OutJJump => 2
      case OutRJump => 2
      case _ => 1
  }

  lemma AgeOfOperation(i: Instr, l: LongLatency)
    ensures WritebackAge(i.op, l) == Latency(i, l) + 1
  {
  }

  /** Every write-back happens at the age of its operation. */
  lemma WritebackByOperation(l: LongLatency, a: Arch, inputs: seq<Option<Instr>>, states: seq<Core>, n: nat, k: nat)
    requires IsRun(l, a, inputs, states) && n <= |inputs| && |states| == |inputs| + 1 && k < |states[n].retired|
    ensures var x := states[n].retired[k]; x.cycle == x.op.born + WritebackAge(x.op.instr.op, l)
  {
    hide *;
    WritebackTiming(l, a, inputs, states, n);
    var s, _ := FlowIn(l, a, inputs, states, n);
    OnTimeIs(s, k);
    AgeOfOperation(s.retired[k].op.instr, l);
  }

  lemma OnTimeIs(s: Core, k: nat)
    requires k < |s.retired| && OnTime(s, k)
    ensures var x := s.retired[k]; x.cycle == x.op.born + Latency(x.op.instr, s.longLatency) + 1
  {
    hide Latency;
  }

  // The latency counter

  /** How many cycles the write-back of the last survivor is away. */
  function Ahead(h: History, c: int, l: LongLatency): nat {
    var t := LastIssue(h, c);
    if t >= 0 && WritebackCycle(h, t, l) > c then WritebackCycle(h, t, l) - c else 0
  }

  lemma AheadAfterFlush(h: History, c: int, l: LongLatency)
    requires forall t :: Alive(h, t) ==> WritebackCycle(h, t, l) <= c
    ensures Ahead(h, c, l) == 0
  {
    hide WritebackCycle;
  }

  lemma AheadNext(h: History, h': History, c: nat, l: LongLatency, issue: Option<Instr>, ahead: nat)
    requires Grows(h, h', c, issue, false) && ahead == Ahead(h, c, l)
    ensures Ahead(h', c + 1, l)
         == if issue.Some? then Latency(issue.value, l) else if ahead > 0 then ahead - 1 else 0
  {
    hide Latency;
    if issue.None? {
      LastIssueIdle(h', c + 1);
      LastIssuePrefix(h, h', c);
      var t := LastIssue(h, c);
      assert t >= 0 ==> Slot(h, t) == Slot(h', t);
    }
  }

  lemma CounterAfterFlush(s: Core, h: History)
    requires s.flushAll && FlushOk(s, h)
    ensures BypassInDecode(s).operationLatency == Ahead(h, s.cycle, s.longLatency)
  {
    hide Ahead, WritebackCycle;
    CounterInDecode(s);
    AheadAfterFlush(h, s.cycle, s.longLatency);
  }

  lemma CounterNext(s: Core, s': Core, h: History, h': History, fetched: Option<Instr>)
    requires NextIs(s, fetched, s') && Histories(s, s', h, h', fetched) && !s'.flushAll
    requires BypassInDecode(s).operationLatency == Ahead(h, s.cycle, s.longLatency)
    ensures BypassInDecode(s').operationLatency == Ahead(h', s'.cycle, s'.longLatency)
  {
    hide *;
    NextParts(s, fetched, s');
    HistoriesParts(s, s', h, h', fetched);
    CounterInDecode(s');
    NotifyOf(s, fetched, s');
    AheadNext(h, h', s.cycle, s.longLatency, IssuedInstr(s, fetched), Ahead(h, s.cycle, s.longLatency));
  }

  lemma NotifyOf(s: Core, fetched: Option<Instr>, s': Core)
    requires NextIs(s, fetched, s')
    ensures s'.notify == IssuedInstr(s, fetched)
  {
    hide Branch, Decode;
  }

  lemma CounterAtReset(l: LongLatency, a: Arch)
    ensures var s := Reset(l, a);
            BypassInDecode(s).operationLatency == Ahead(Surviving(s), s.cycle, s.longLatency)
  {
  }

  /** In decode the counter says exactly how far the write-back of the last survivor is away. */
  lemma {:induction false} CounterIsExact(l: LongLatency, a: Arch, inputs: seq<Option<Instr>>, states: seq<Core>,
                                          n: nat)
    requires IsRun(l, a, inputs, states) && n <= |inputs|
    ensures |states| == |inputs| + 1 && states[n].longLatency == l && states[n].cycle == n
    ensures BypassInDecode(states[n]).operationLatency == Ahead(Surviving(states[n]), n, l)
  {
    hide *;
    ReachableFlow(l, a, inputs, states, n);
    FlowParts(states[n], Surviving(states[n]), WorkOf(states));
    if states[n].flushAll {
      CounterAfterFlush(states[n], Surviving(states[n]));
    } else if n == 0 {
      StartOfRun(l, a, inputs, states);
      CounterAtReset(l, a);
    } else {
      CounterIsExact(l, a, inputs, states, n - 1);
      CycleOfRun(l, a, inputs, states, n - 1);
      CycleHistories(l, a, inputs, states, n - 1);
      CounterNext(states[n - 1], states[n], Surviving(states[n - 1]), Surviving(states[n]), inputs[n - 1]);
    }
  }

  // Stalls

  /** In decode in cycle `c`, the register `r` can be an operand. */
  ghost predicate Available(h: History, r: Register, c: nat, l: LongLatency) {
    var p := LastWriter(h, c, r);
    p < 0 || c - p >= OperandAge(h[p].value, r, l)
  }

  lemma ReadyWhenAvailable(b: BypassState, h: History, r: Register, c: nat, l: LongLatency)
    requires EntryTracks(b.scoreboard[r], h, c, r, c, l)
    ensures SourceReady(b, r) <==> Available(h, r, c, l)
  {
    var p := LastWriter(h, c, r);
    if p >= 0 {
      AgeOfOperation(h[p].value, l);
    }
  }

  /** Something is still to be written back in or after the cycle in which `i`, issued in cycle `c`,
      would be. */
  ghost predicate OutOfOrder(h: History, i: Instr, c: nat, l: LongLatency) {
    exists t :: t < c && Alive(h, t) && WritebackCycle(h, t, l) >= c + WritebackAge(i.op, l)
  }

  lemma SlotTaken(h: History, i: Instr, c: nat, l: LongLatency)
    requires InOrder(h, l)
    ensures OutOfOrder(h, i, c, l) <==> Latency(i, l) < Ahead(h, c, l)
  {
    hide Latency;
    AgeOfOperation(i, l);
    var t := LastIssue(h, c);
    if Latency(i, l) < Ahead(h, c, l) {
      assert Alive(h, t) && WritebackCycle(h, t, l) >= c + WritebackAge(i.op, l);
    }
  }

  /** As long as no second destination is traced over a bypassible entry, decode holds back the
      instruction in it exactly if one of its operands is not available yet, or if it would be written
      back no later than something issued before. */
  lemma StallsExactly(l: LongLatency, a: Arch, inputs: seq<Option<Instr>>, states: seq<Core>, n: nat)
    requires IsRun(l, a, inputs, states) && |states| == |inputs| + 1 && n < |inputs|
    requires forall k :: 0 <= k <= n ==> SecondDestinationSafe(states[k])
    requires DecodeInput(states[n], inputs[n]).Some?
    ensures var h, i := Surviving(states[n]), DecodeInput(states[n], inputs[n]).value;
            && (states[n + 1].stalled == Some(i)
                <==> !Available(h, i.src0, n, l) || !Available(h, i.src1, n, l) || OutOfOrder(h, i, n, l))
            && (states[n + 1].stalled != Some(i) ==> IssuedInstr(states[n], inputs[n]) == Some(i))
  {
    hide *;
    var s, i := states[n], DecodeInput(states[n], inputs[n]).value;
    ReachableFlow(l, a, inputs, states, n);
    FlowParts(s, Surviving(s), WorkOf(states));
    CounterIsExact(l, a, inputs, states, n);
    SlotTaken(Surviving(s), i, n, l);
    WorksOnNothing(s, inputs[n]);
    ScoreboardTracksRun(l, a, inputs, states, n, i.src0);
    ScoreboardTracksRun(l, a, inputs, states, n, i.src1);
    ReadyWhenAvailable(BypassInDecode(s), Surviving(s), i.src0, n, l);
    ReadyWhenAvailable(BypassInDecode(s), Surviving(s), i.src1, n, l);
    CycleOfRun(l, a, inputs, states, n);
    StallIs(s, inputs[n], i);
  }

  lemma WorksOnNothing(s: Core, fetched: Option<Instr>)
    ensures s.flushAll ==> DecodeInput(s, fetched).None?
  {
  }

  lemma StallIs(s: Core, fetched: Option<Instr>, i: Instr)
    requires s.Shaped() && DecodeInput(s, fetched) == Some(i)
    ensures var b := BypassInDecode(s);
            Next(s, fetched).stalled
            == if !SourceReady(b, i.src0) || !SourceReady(b, i.src1) || Latency(i, s.longLatency) < b.operationLatency
               then Some(i) else None
    ensures Next(s, fetched).stalled != Some(i) ==> IssuedInstr(s, fetched) == Some(i)
  {
    hide Next, SourceReady, BypassInDecode, Latency, DecodeInput;
    DecodeKept(s, fetched);
  }
}
