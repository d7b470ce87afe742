/** The back end as objects clocked one after the other, proved to do in a cycle what `Pipeline.Next`
    says. */
module PerfSimulator {
  import opened Operations
  import opened Options
  import opened RegisterFile
  import opened FuncSim
  import opened Scoreboard
  import opened BypassingUnit
  import opened RegisterFileObject
  import opened Pipeline
  import opened PortRuns

  /** The contents of the ports of latency 1, and what enters the long unit. */
  datatype PortValues = PortValues(
    stalled: Option<Instr>, flushFetch: bool, notify: Option<Instr>,
    toExecute: Option<Op>, command0: Option<BypassCommand>, command1: Option<BypassCommand>,
    intoLongUnit: Option<Op>, toMem: Option<Op>, toBranch: Option<Op>,
    fromExecute: seq<Op>, fromMem: Option<Op>, fromBranch: Option<Op>, flushAll: bool,
    bypassExecute: seq<Output>, bypassLong: seq<Output>, bypassMem: seq<Output>,
    bypassWriteback: seq<Output>, bypassBranch: seq<Output>)

  const NOTHING := PortValues(None, false, None, None, None, None, None, None, None,
                              [], None, None, false, [], [], [], [], [])

  /** `now` is what can be read in this cycle; what is written in it can be read in the next, or,
      in the long unit, `longUnit.Length` cycles later. */
  class Ports {
    var now: PortValues
    var written: PortValues
    var longUnit: seq<Option<Op>>

    constructor (longLatency: LongLatency)
      ensures now == written == NOTHING && longUnit == seq(longLatency - 1, _ => None)
    {
      now, written, longUnit := NOTHING, NOTHING, seq(longLatency - 1, _ => None);
    }

    /** Every port is a line of delays: of one cycle here, of as many as it has places in the long
        unit. */
    method Tick()
      requires longUnit != []
      modifies this
      ensures [now] == Shift([old(now)], old(written)) && written == NOTHING
      ensures longUnit == Shift(old(longUnit), old(written.intoLongUnit))
    {
      longUnit := longUnit[1..] + [written.intoLongUnit];
      now, written := written, NOTHING;
    }
  }

  class PerfSim {
    const isa: Isa
    const longLatency: LongLatency
    const ports: Ports
    const bypassingUnit: DataBypass
    const rf: RF
    var mem: Memory
    var cycle: nat
    var flushExpiration: nat
    var executedInstrs: nat
    var mispredictions: nat
    ghost var issued: seq<Option<Instr>>
    ghost var misses: set<nat>
    ghost var retired: seq<Retirement>
    ghost var accessed: seq<Op>

    ghost predicate Wired()
      reads this, bypassingUnit, rf
    {
      bypassingUnit.Valid() && bypassingUnit.longLatency == longLatency && rf.Valid()
    }

    /** The state at the start of a cycle, with its record. */
    ghost function View(): Core
      requires Wired()
      reads this, ports, bypassingUnit, bypassingUnit.scoreboard, rf, rf.values
    {
      CoreOf(isa, longLatency, cycle, rf.Contents(), mem, bypassingUnit.State(), flushExpiration,
             ports.now, ports.longUnit, issued, misses, retired, accessed)
    }

    ghost predicate Valid()
      reads this, ports, bypassingUnit, rf
    {
      && Wired() && ports.written == NOTHING
      && |ports.longUnit| == longLatency - 1 && |issued| == cycle
      && (forall f :: f in misses ==> f < cycle)
      && executedInstrs == |retired| && mispredictions == |misses|
    }

    constructor (longLatency: LongLatency, a: Arch)
      ensures Valid() && View() == Reset(longLatency, a)
    {
      isa, this.longLatency := a.isa, longLatency;
      ports := new Ports(longLatency);
      bypassingUnit := new DataBypass(longLatency);
      rf := new RF(a.rf);
      mem, cycle, flushExpiration, executedInstrs, mispredictions := a.mem, 0, 0, 0, 0;
      issued, misses, retired, accessed := [], {}, [], [];
    }

    /** The bypassing unit is brought up to date before decode looks at it. */
    method UpdateBypassing(ghost s: Core)
      requires Wired() && Read(ports.now, s)
      requires s.longLatency == longLatency && bypassingUnit.State() == s.bypass
      modifies bypassingUnit`operationLatency, bypassingUnit.scoreboard
      ensures Wired() && bypassingUnit.State() == BypassInDecode(s)
    {
      hide Updated, Traced, Flushed;
      bypassingUnit.Update();
      if ports.now.notify.Some? {
        bypassingUnit.TraceNewInstr(ports.now.notify.value);
      }
      if ports.now.flushAll {
        bypassingUnit.HandleFlush();
      }
    }

    method DecodeClock(fetched: Option<Instr>, ghost s: Core)
      requires Wired() && Read(ports.now, s) && ports.written == NOTHING
      requires s.longLatency == longLatency && s.cycle == cycle
      requires bypassingUnit.State() == s.bypass && rf.Contents() == s.rf
      modifies bypassingUnit`operationLatency, bypassingUnit.scoreboard, ports`written
      ensures Wired() && bypassingUnit.State() == BypassInDecode(s)
      ensures ports.written == DecodeWrites(s, fetched)
    {
      hide BypassInDecode, IsStall, DecodeMisprediction, SourceRead, SourceCommand, DecodeWrites;
      UpdateBypassing(s);
      DecodedWrites(s, fetched);
      if ports.now.flushAll || ports.now.flushFetch {
        return;
      }
      if ports.now.stalled.None? && fetched.None? {
        return;
      }
      var i := if ports.now.stalled.Some? then ports.now.stalled.value else fetched.value;
      Issue(i, s);
    }

    /** Stalls or issues the instruction in decode. */
    method Issue(i: Instr, ghost s: Core)
      requires Wired() && ports.written == NOTHING
      requires s.longLatency == longLatency && s.cycle == cycle
      requires bypassingUnit.State() == BypassInDecode(s) && rf.Contents() == s.rf
      modifies ports`written
      ensures ports.written == IssueWrites(s, i)
    {
      hide BypassInDecode, IsStall, DecodeMisprediction, Command;
      var stall := bypassingUnit.MustStall(i);
      if DecodeMisprediction(i) && !stall {
        ports.written := ports.written.(flushFetch := true);
      }
      if stall {
        ports.written := ports.written.(stalled := Some(i));
        return;
      }
      var v0, command0 := ReadSource(i.src0);
      var v1, command1 := ReadSource(i.src1);
      ports.written := ports.written.(command0 := command0, command1 := command1);
      ports.written := ports.written.(notify := Some(i));
      ports.written := ports.written.(toExecute := Some(Op(i, cycle, v0, v1, NO_RESULT)));
    }

    /** A source is read from the register file, or else a bypass of it is commanded. */
    method ReadSource(r: Register) returns (v: Word, command: Option<BypassCommand>)
      requires Wired()
      ensures var e := bypassingUnit.State().scoreboard[r];
              && v == (if e.InRF() then rf.Contents()[r] else NO_VALUE)
              && command == (if !e.InRF() && e.isBypassible then Some(Command(bypassingUnit.State(), r, longLatency))
                             else None)
    {
      v, command := NO_VALUE, None;
      var inRF := bypassingUnit.IsInRF(r);
      if inRF {
        v := rf.Read(r);
      } else {
        var bypassible := bypassingUnit.IsBypassible(r);
        if bypassible {
          var c := bypassingUnit.GetBypassCommand(r);
          command := Some(c);
        }
      }
    }

    method ExecuteClock(ghost s: Core, ghost before: PortValues)
      requires s.Shaped() && Read(ports.now, s) && ports.longUnit == s.longUnit
      requires s.isa == isa && s.longLatency == longLatency && flushExpiration == s.flushExpiration
      requires ports.written == before && NothingFromExecute(before)
      modifies this`flushExpiration, ports`written
      ensures flushExpiration == Execute(s).flushExpiration
      ensures ports.written == ExecuteWrites(s, before)
      ensures s.longUnit[1..] + [ports.written.intoLongUnit] == Execute(s).longUnit
    {
      hide OutputOf, ExecutedOp, Execute, ExecuteWrites;
      ExecutedWrites(s, before);
      if flushExpiration != 0 {
        flushExpiration := flushExpiration - 1;
      }
      if ports.now.flushAll {
        flushExpiration := longLatency - 1;
        return;
      }
      if ports.longUnit[0].Some? && flushExpiration == 0 {
        var done := ports.longUnit[0].value;
        ports.written := ports.written.(bypassLong := [OutputOf(done)], fromExecute := [done]);
      }
      if ports.now.toExecute.None? {
        return;
      }
      ExecuteInstr(s, ports.written);
    }

    /** Executes an instruction and sends it on its way. */
    method ExecuteInstr(ghost s: Core, ghost before: PortValues)
      requires Read(ports.now, s) && ports.now.toExecute.Some? && s.isa == isa && ports.written == before
      modifies ports`written
      ensures ports.written == Routed(ExecutedOp(s, s.toExecute.value), before)
    {
      hide Operand, OutputOf;
      var x := ports.now.toExecute.value;
      var v0 := BypassedOperand(x.vSrc0, ports.now.command0, s);
      var v1 := BypassedOperand(x.vSrc1, ports.now.command1, s);
      x := x.(vSrc0 := v0, vSrc1 := v1, res := isa.executor(x.instr.code, v0, v1));
      if x.instr.IsLongArithmetic() {
        ports.written := ports.written.(intoLongUnit := Some(x));
      } else {
        ports.written := ports.written.(bypassExecute := [OutputOf(x)]);
        if x.instr.IsJump() {
          ports.written := ports.written.(toBranch := Some(x));
        } else if x.instr.IsMemStageRequired() {
          ports.written := ports.written.(toMem := Some(x));
        } else {
          ports.written := ports.written.(fromExecute := ports.written.fromExecute + [x]);
        }
      }
    }

    /** Everything ready on the commanded port is read; the last value wins. */
    method BypassedOperand(vSrc: Word, command: Option<BypassCommand>, ghost s: Core) returns (v: Word)
      requires Read(ports.now, s)
      ensures v == Operand(s, vSrc, command)
    {
      if command.None? {
        return vSrc;
      }
      var direction := command.value.Direction();
      var port :=
        if direction == 0 then ports.now.bypassExecute
        else if direction == 1 then ports.now.bypassLong
        else if direction == 2 then ports.now.bypassMem
        else if direction == 3 then ports.now.bypassWriteback
        else ports.now.bypassBranch;
      v := 0;
      for k := 0 to |port|
        invariant v == if k == 0 then 0 else port[k - 1].v0
      {
        v := port[k].v0;
      }
    }

    method MemClock(ghost s: Core, ghost before: PortValues)
      requires Read(ports.now, s) && s.isa == isa && s.mem == mem
      requires ports.written == before && before.fromMem.None? && before.bypassMem == []
      modifies this`mem, ports`written
      ensures mem == Mem(s).mem
      ensures ports.written == MemWrites(s, before)
    {
      if ports.now.flushAll || ports.now.toMem.None? {
        return;
      }
      var x := ports.now.toMem.value;
      var loaded := mem;
      mem := LoadStoreMemory(isa, x.instr, x.vSrc1, x.res, loaded);
      x := Accessed(isa, x, loaded);
      ports.written := ports.written.(bypassMem := [OutputOf(x)]);
      ports.written := ports.written.(fromMem := Some(x));
    }

    method BranchClock(ghost s: Core, ghost before: PortValues)
      requires Read(ports.now, s)
      requires ports.written == before && before.fromBranch.None? && before.bypassBranch == [] && !before.flushAll
      modifies this`mispredictions, ports`written
      ensures mispredictions == old(mispredictions) + (if Branch(s).miss then 1 else 0)
      ensures ports.written == BranchWrites(s, before)
    {
      if ports.now.toBranch.None? || ports.now.flushAll {
        return;
      }
      var x := ports.now.toBranch.value;
      if BranchMisprediction(x) {
        mispredictions := mispredictions + 1;
        ports.written := ports.written.(flushAll := true);
      }
      ports.written := ports.written.(bypassBranch := [OutputOf(x)]);
      ports.written := ports.written.(fromBranch := Some(x));
    }

    /** What the three input ports have ready, one instruction from each. */
    method ReadInputs(ghost s: Core) returns (instrs: seq<Op>)
      requires Read(ports.now, s)
      ensures instrs == ReadInstructions(s)
    {
      instrs := AsSeq(ports.now.fromBranch) + AsSeq(ports.now.fromMem);
      if ports.now.fromExecute != [] {
        instrs := instrs + [ports.now.fromExecute[0]];
      }
    }

    method WritebackClock(ghost s: Core, ghost before: PortValues)
      requires Read(ports.now, s) && rf.Valid() && rf.Contents() == s.rf
      requires ports.written == before && before.bypassWriteback == []
      modifies this`executedInstrs, rf.values, ports`written
      ensures rf.Contents() == WrittenBack(s.rf, ReadInstructions(s))
      ensures executedInstrs == old(executedInstrs) + |ReadInstructions(s)|
      ensures ports.written == before.(bypassWriteback := Outputs(ReadInstructions(s)))
    {
      hide WriteDst, ReadInstructions;
      var instrs := ReadInputs(s);
      for k := 0 to |instrs|
        invariant WrittenBack(rf.Contents(), instrs[k..]) == WrittenBack(s.rf, instrs)
        invariant executedInstrs == old(executedInstrs) + k
        invariant ports.written == before.(bypassWriteback := Outputs(instrs[..k]))
      {
        ghost var x := instrs[k];
        assert instrs[k..][1..] == instrs[k + 1..];
        rf.WriteBack(instrs[k].instr, instrs[k].res);
        ports.written := ports.written.(bypassWriteback := ports.written.bypassWriteback + [OutputOf(instrs[k])]);
        executedInstrs := executedInstrs + 1;
        assert Outputs(instrs[..k + 1]) == Outputs(instrs[..k]) + [OutputOf(instrs[k])];
      }
      assert instrs[..|instrs|] == instrs;
    }

    /** The stages of one cycle in order. */
    method ClockTree(fetched: Option<Instr>, ghost s: Core)
      requires Valid() && s == View()
      modifies this`mem, this`flushExpiration, this`executedInstrs, this`mispredictions
      modifies ports, bypassingUnit`operationLatency, bypassingUnit.scoreboard, rf.values
      ensures Wired() && ports.written == NOTHING && ports.now == PortsAfter(s, fetched)
      ensures ports.longUnit == Execute(s).longUnit && flushExpiration == Execute(s).flushExpiration
      ensures bypassingUnit.State() == BypassInDecode(s) && mem == Mem(s).mem
      ensures rf.Contents() == WrittenBack(s.rf, ReadInstructions(s))
      ensures executedInstrs == old(executedInstrs) + |ReadInstructions(s)|
      ensures mispredictions == old(mispredictions) + (if Branch(s).miss then 1 else 0)
    {
      hide Decode, Execute, Mem, Branch, ReadInstructions, WrittenBack, Outputs, IssuedInstr, BypassInDecode;
      hide DecodeWrites, ExecuteWrites, MemWrites, BranchWrites;
      ghost var afterDecode := DecodeWrites(s, fetched);
      ghost var afterExecute := ExecuteWrites(s, afterDecode);
      ghost var afterMem := MemWrites(s, afterExecute);
      WritesDisjoint(s, fetched);
      DecodeClock(fetched, s);
      ExecuteClock(s, afterDecode);
      MemClock(s, afterExecute);
      BranchClock(s, afterMem);
      WritebackClock(s, BranchWrites(s, afterMem));
      ports.Tick();
      assert ports.now == [ports.now][0];
    }

    /** One cycle: the stages in order, then time moves on. */
    method Clock(fetched: Option<Instr>)
      requires Valid()
      modifies this, ports, bypassingUnit, bypassingUnit.scoreboard, rf.values
      ensures Valid() && View() == Next(old(View()), fetched)
    {
      hide Next, Execute, Mem, Branch, ReadInstructions, WrittenBack, IssuedInstr, BypassInDecode, PortsAfter;
      hide DataBypass.State, RF.Contents;
      ghost var s := View();
      ClockTree(fetched, s);
      issued := issued + [IssuedInstr(s, fetched)];
      misses := if Branch(s).miss then misses + {cycle} else misses;
      retired := retired + Retirements(ReadInstructions(s), cycle);
      accessed := accessed + AsSeq(Mem(s).toWriteback);
      cycle := cycle + 1;
      NextIsAssembled(s, fetched, View());
    }

    /** Clocked over and over from reset, the object goes through a run in the sense of `IsRun`. */
    method RunCycles(inputs: seq<Option<Instr>>, ghost a: Arch) returns (ghost states: seq<Core>)
      requires Valid() && View() == Reset(longLatency, a)
      modifies this, ports, bypassingUnit, bypassingUnit.scoreboard, rf.values
      ensures Valid() && IsRun(longLatency, a, inputs, states) && View() == states[|inputs|]
    {
      hide Next, Reset;
      states := [View()];
      for n := 0 to |inputs|
        invariant Valid() && |states| == n + 1 && states[n] == View() && states[0] == Reset(longLatency, a)
        invariant forall k :: 0 <= k < n ==> states[k].Shaped() && states[k + 1] == Next(states[k], inputs[k])
      {
        Clock(inputs[n]);
        states := states + [View()];
      }
      forall k | 0 <= k < |inputs|
        ensures IsCycle(inputs, states, k)
      {
      }
    }
  }

  ghost function PortsAfter(s: Core, fetched: Option<Instr>): PortValues
    requires s.Shaped()
  {
    BranchWrites(s, MemWrites(s, ExecuteWrites(s, DecodeWrites(s, fetched))))
      .(bypassWriteback := Outputs(ReadInstructions(s)))
  }

  // The stages as functions on what they write

  ghost function CoreOf(isa: Isa, longLatency: LongLatency, cycle: nat, rf: Registers, mem: Memory, bypass: BypassState,
                        flushExpiration: nat, now: PortValues, longUnit: seq<Option<Op>>, issued: seq<Option<Instr>>,
                        misses: set<nat>, retired: seq<Retirement>, accessed: seq<Op>): Core
  {
    Core(isa, longLatency, cycle, rf, mem, bypass, now.stalled, now.flushFetch, now.notify,
         now.toExecute, now.command0, now.command1, flushExpiration, longUnit, now.toMem, now.toBranch,
         now.fromExecute, now.fromMem, now.fromBranch, now.flushAll,
         now.bypassExecute, now.bypassLong, now.bypassMem, now.bypassWriteback, now.bypassBranch,
         issued, misses, retired, accessed)
  }

  /** What can be read in this cycle is what `s` holds. */
  ghost predicate Read(now: PortValues, s: Core) {
    && now.stalled == s.stalled && now.flushFetch == s.flushFetch && now.notify == s.notify
    && now.toExecute == s.toExecute && now.command0 == s.command0 && now.command1 == s.command1
    && now.toMem == s.toMem && now.toBranch == s.toBranch
    && now.fromExecute == s.fromExecute && now.fromMem == s.fromMem && now.fromBranch == s.fromBranch
    && now.flushAll == s.flushAll
    && now.bypassExecute == s.bypassExecute && now.bypassLong == s.bypassLong && now.bypassMem == s.bypassMem
    && now.bypassWriteback == s.bypassWriteback && now.bypassBranch == s.bypassBranch
  }

  ghost function DecodeWrites(s: Core, fetched: Option<Instr>): PortValues {
    var d := Decode(s, fetched);
    NOTHING.(stalled := d.stalled, flushFetch := d.flushFetch, notify := IssuedInstr(s, fetched),
             toExecute := d.issue, command0 := d.command0, command1 := d.command1)
  }

  ghost function IssueWrites(s: Core, i: Instr): PortValues {
    var b := BypassInDecode(s);
    if IsStall(b, i, s.longLatency) then NOTHING.(stalled := Some(i))
    else
      NOTHING.(flushFetch := DecodeMisprediction(i), notify := Some(i),
               toExecute := Some(Op(i, s.cycle, SourceRead(s, b, i.src0), SourceRead(s, b, i.src1), NO_RESULT)),
               command0 := SourceCommand(s, b, i.src0), command1 := SourceCommand(s, b, i.src1))
  }

  lemma DecodedWrites(s: Core, fetched: Option<Instr>)
    ensures DecodeWrites(s, fetched)
         == match DecodeInput(s, fetched) case None => NOTHING case Some(i) => IssueWrites(s, i)
  {
    hide BypassInDecode, IsStall, DecodeMisprediction, SourceRead, SourceCommand;
  }

  ghost predicate NothingFromExecute(p: PortValues) {
    && p.intoLongUnit.None? && p.toMem.None? && p.toBranch.None?
    && p.fromExecute == [] && p.bypassExecute == [] && p.bypassLong == []
  }

  ghost function ExecuteWrites(s: Core, before: PortValues): PortValues
    requires s.Shaped()
  {
    var e := Execute(s);
    before.(intoLongUnit := e.longUnit[s.longLatency - 2], toMem := e.toMem, toBranch := e.toBranch,
            fromExecute := e.toWriteback, bypassExecute := e.bypassExecute, bypassLong := e.bypassLong)
  }

  /** The ports an executed instruction goes to. */
  ghost function Routed(x: Op, before: PortValues): PortValues {
    if x.instr.IsLongArithmetic() then before.(intoLongUnit := Some(x))
    else
      var p := before.(bypassExecute := [OutputOf(x)]);
      if x.instr.IsJump() then p.(toBranch := Some(x))
      else if x.instr.IsMemStageRequired() then p.(toMem := Some(x))
      else p.(fromExecute := p.fromExecute + [x])
  }

  lemma ExecutedWrites(s: Core, before: PortValues)
    requires s.Shaped() && NothingFromExecute(before)
    ensures Execute(s).flushExpiration == if s.flushAll then s.longLatency - 1 else ClockedSavedFlush(s)
    ensures s.longUnit[1..] + [ExecuteWrites(s, before).intoLongUnit] == Execute(s).longUnit
    ensures s.flushAll ==> ExecuteWrites(s, before) == before
    ensures !s.flushAll ==>
              var done := LongDone(s);
              var p := if done == [] then before else before.(bypassLong := [OutputOf(done[0])], fromExecute := done);
              ExecuteWrites(s, before)
              == if s.toExecute.None? then p else Routed(ExecutedOp(s, s.toExecute.value), p)
  {
    hide OutputOf, ExecutedOp, ClockedSavedFlush, ExecuteWrites;
    if s.flushAll {
      EnteredLast(s, before, None);
    } else {
      hide LongDone;
      if s.toExecute.None? {
        EnteredLast(s, before, None);
      } else {
        var x := ExecutedOp(s, s.toExecute.value);
        EnteredLast(s, before, if x.instr.IsLongArithmetic() then Some(x) else None);
      }
    }
  }

  lemma EnteredLast(s: Core, before: PortValues, entered: Option<Op>)
    requires s.Shaped() && Execute(s).longUnit == s.longUnit[1..] + [entered]
    ensures var e := Execute(s);
            ExecuteWrites(s, before)
            == before.(intoLongUnit := entered, toMem := e.toMem, toBranch := e.toBranch,
                       fromExecute := e.toWriteback, bypassExecute := e.bypassExecute, bypassLong := e.bypassLong)
  {
    hide Execute;
  }

  ghost function MemWrites(s: Core, before: PortValues): PortValues {
    var x := Mem(s).toWriteback;
    before.(fromMem := x, bypassMem := if x.Some? then [OutputOf(x.value)] else [])
  }

  ghost function BranchWrites(s: Core, before: PortValues): PortValues {
    var b := Branch(s);
    before.(flushAll := b.miss, fromBranch := b.toWriteback,
            bypassBranch := if b.toWriteback.Some? then [OutputOf(b.toWriteback.value)] else [])
  }

  /** Each stage writes ports no earlier stage has written. */
  lemma WritesDisjoint(s: Core, fetched: Option<Instr>)
    requires s.Shaped()
    ensures var d := DecodeWrites(s, fetched);
            var e := ExecuteWrites(s, d);
            var m := MemWrites(s, e);
            var b := BranchWrites(s, m);
            && NothingFromExecute(d)
            && e.fromMem.None? && e.bypassMem == []
            && m.fromBranch.None? && m.bypassBranch == [] && !m.flushAll
            && b.bypassWriteback == [] && b.intoLongUnit == e.intoLongUnit
  {
    hide Decode, Execute, Mem, Branch;
  }

  lemma NextIsAssembled(s: Core, fetched: Option<Instr>, s': Core)
    requires s.Shaped()
    requires var w := ReadInstructions(s);
             s' == CoreOf(s.isa, s.longLatency, s.cycle + 1, WrittenBack(s.rf, w), Mem(s).mem, BypassInDecode(s),
                          Execute(s).flushExpiration, PortsAfter(s, fetched), Execute(s).longUnit,
                          s.issued + [IssuedInstr(s, fetched)],
                          if Branch(s).miss then s.misses + {s.cycle} else s.misses,
                          s.retired + Retirements(w, s.cycle), s.accessed + AsSeq(Mem(s).toWriteback))
    ensures s' == Next(s, fetched)
  {
    hide Execute, Mem, Branch, ReadInstructions, WrittenBack, Outputs, BypassInDecode, Decode;
    assert Decode(s, fetched).bypass == BypassInDecode(s) by {
      DecodeKeepsUnit(s, fetched);
    }
  }

  lemma DecodeKeepsUnit(s: Core, fetched: Option<Instr>)
    ensures Decode(s, fetched).bypass == BypassInDecode(s)
  {
  }
}
