/** The fetch stage while the instruction cache hits: it goes on where Branch, decode or the prediction
    of the last instruction sends it. */
module FetchUnit {
  import opened Operations
  import opened Options
  import opened FuncSim
  import opened Scoreboard
  import opened Pipeline
  import opened Branching

  /** The instructions of a program, and what the predictor says of an address. */
  type Code = Addr -> Instr
  type Predictor = Addr -> BPInterface

  /** The ports fetch reads, and the one decode reads, at the start of a cycle. */
  datatype FetchPorts = FetchPorts(
    external: Option<Addr>,    // WRITEBACK_2_FETCH_TARGET
    fromBranch: Option<Addr>,  // BRANCH_2_FETCH_TARGET
    fromDecode: Option<Addr>,  // DECODE_2_FETCH_TARGET
    stall: bool,               // DECODE_2_FETCH_STALL
    target: Option<Addr>,      // TARGET
    hold: Option<Addr>,        // HOLD_PC
    toDecode: Option<Instr>)   // FETCH_2_DECODE

  /** The address to fetch from. */
  function Selected(f: FetchPorts): Option<Addr> {
    if f.external.Some? then f.external
    else if f.fromBranch.Some? then f.fromBranch
    else if f.fromDecode.Some? then f.fromDecode
    else if !f.stall && f.target.Some? then f.target
    else f.hold
  }

  function FetchAt(code: Code, bp: Predictor, pc: Addr): Instr {
    code(pc).(pc := pc, bp := bp(pc))
  }

  /** An instruction of the program with some admissible prediction. */
  ghost predicate IsFetched(code: Code, i: Instr) {
    i == code(i.pc).(pc := i.pc, bp := i.bp) && PredictionOk(i)
  }

  /** What fetch writes in a cycle, with an admissible prediction. */
  ghost predicate Sends(code: Code, f: FetchPorts, hold: Option<Addr>, target: Option<Addr>, toDecode: Option<Instr>) {
    && hold == Selected(f)
    && match Selected(f)
       case None => target.None? && toDecode.None?
       case Some(pc) =>
         toDecode.Some? && var i := toDecode.value;
         IsFetched(code, i) && i.pc == pc && target == Some(i.bp.target)
  }

  class Fetch {
    var target: Option<Addr>
    var holdPc: Option<Addr>
    var datapath: Option<Instr>

    /** The ports of this unit with the given values on those that others write. */
    ghost function View(external: Option<Addr>, fromBranch: Option<Addr>, fromDecode: Option<Addr>,
                        stall: bool): FetchPorts
      reads this
    {
      FetchPorts(external, fromBranch, fromDecode, stall, target, holdPc, datapath)
    }

    constructor ()
      ensures target.None? && holdPc.None? && datapath.None?
    {
      target, holdPc, datapath := None, None, None;
    }

    method GetTarget(external: Option<Addr>, fromBranch: Option<Addr>, fromDecode: Option<Addr>, stall: bool)
      returns (pc: Option<Addr>)
      ensures pc == Selected(View(external, fromBranch, fromDecode, stall))
    {
      if external.Some? {
        return external;
      }
      if fromBranch.Some? {
        return fromBranch;
      }
      if fromDecode.Some? {
        return fromDecode;
      }
      if !stall && target.Some? {
        return target;
      }
      return holdPc;
    }

    /** Fetches from the selected address and goes by the prediction made for it; with nothing
        selected, nothing is written. */
    method Clock(external: Option<Addr>, fromBranch: Option<Addr>, fromDecode: Option<Addr>, stall: bool,
                 code: Code, bp: Predictor)
      modifies this
      ensures var pc := old(Selected(View(external, fromBranch, fromDecode, stall)));
              && holdPc == pc
              && (pc.None? ==> target.None? && datapath.None?)
              && (pc.Some? ==>
                  datapath == Some(FetchAt(code, bp, pc.value)) && target == Some(bp(pc.value).target))
              && ((pc.Some? ==> PredictionOk(FetchAt(code, bp, pc.value))) ==>
                  Sends(code, old(View(external, fromBranch, fromDecode, stall)), holdPc, target, datapath))
    {
      var pc := GetTarget(external, fromBranch, fromDecode, stall);
      target, holdPc, datapath := None, None, None;
      if pc.None? {
        return;
      }
      holdPc := pc;
      var instr := FetchAt(code, bp, pc.value);
      target := Some(instr.bp.target);
      datapath := Some(instr);
    }
  }

  // What the other stages write

  /** Decode redirects fetch when it first sees an instruction, stalled or not. */
  function DecodeTarget(s: Core, fetched: Option<Instr>): Option<Addr> {
    var input := DecodeInput(s, fetched);
    if input.Some? && s.stalled.None? && DecodeMisprediction(input.value) then Some(input.value.decodedTarget) else None
  }

  predicate Stalls(s: Core, fetched: Option<Instr>) {
    var input := DecodeInput(s, fetched);
    input.Some? && IsStall(BypassInDecode(s), input.value, s.longLatency)
  }

  function BranchTarget(s: Core): Option<Addr> {
    if Branch(s).miss && s.toBranch.Some? then Some(s.toBranch.value.res.newPC) else None
  }

  /** One cycle of fetch beside one of the back end. */
  ghost predicate FetchCycle(code: Code, f: FetchPorts, s: Core, f': FetchPorts) {
    && f'.external.None?
    && f'.fromBranch == BranchTarget(s)
    && f'.fromDecode == DecodeTarget(s, f.toDecode)
    && f'.stall == Stalls(s, f.toDecode)
    && Sends(code, f, f'.hold, f'.target, f'.toDecode)
  }

  const RESET_FETCH := FetchPorts(None, None, None, false, None, None, None)

  /** A run of the whole pipeline from the address `start`, on some program with any predictions. */
  ghost predicate IsFullRun(l: LongLatency, a: Arch, code: Code, start: Addr,
                            fetches: seq<FetchPorts>, inputs: seq<Option<Instr>>, states: seq<Core>) {
    && IsRun(l, a, inputs, states)
    && |fetches| == |states|
    && fetches[0] == RESET_FETCH.(external := Some(start))
    && forall k :: 0 <= k < |inputs| ==> IsFullCycle(code, fetches, inputs, states, k)
  }

  ghost predicate IsFullCycle(code: Code, fetches: seq<FetchPorts>, inputs: seq<Option<Instr>>, states: seq<Core>,
                              k: nat)
    requires k < |inputs| && |fetches| == |states| == |inputs| + 1
  {
    inputs[k] == fetches[k].toDecode && FetchCycle(code, fetches[k], states[k], fetches[k + 1])
  }
}
