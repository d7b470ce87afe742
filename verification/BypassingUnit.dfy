/** The bypassing unit as decode drives it: an array of entries updated in place. */
module BypassingUnit {
  import opened Operations
  import opened Scoreboard

  class DataBypass {
    const longLatency: LongLatency
    const scoreboard: array<RegisterInfo>
    var operationLatency: nat

    ghost predicate Valid()
      reads this
    {
      scoreboard.Length == MAX_REG
    }

    ghost function State(): BypassState
      requires Valid()
      reads this, scoreboard
    {
      BypassState(scoreboard[..], operationLatency)
    }

    constructor (longLatency: LongLatency)
      ensures Valid() && State() == RESET_BYPASS && fresh(scoreboard) && this.longLatency == longLatency
    {
      this.longLatency := longLatency;
      scoreboard := new RegisterInfo[MAX_REG](_ => UNTRACED);
      operationLatency := 0;
      new;
      assert scoreboard[..] == RESET_BYPASS.scoreboard;
    }

    method Update()
      requires Valid()
      modifies scoreboard, this`operationLatency
      ensures State() == Updated(old(State()), longLatency)
    {
      for r := 0 to MAX_REG
        invariant forall k :: 0 <= k < r ==> scoreboard[k] == UpdatedEntry(old(scoreboard[k]), longLatency)
        invariant forall k :: r <= k < MAX_REG ==> scoreboard[k] == old(scoreboard[k])
        invariant operationLatency == old(operationLatency)
      {
        var entry := scoreboard[r];
        if !entry.isTraced {
          continue;
        }
        if entry.current.value == WB_STAGE {
          scoreboard[r] := UNTRACED;
          continue;
        }
        if entry.current.value == FIRST_EXECUTION.value {
          entry := entry.(current := entry.next);
        } else if entry.current.value == longLatency - 1 || entry.current.value == MEM_OR_BRANCH_STAGE {
          entry := entry.(current := WRITEBACK);
        } else {
          entry := entry.(current := entry.current.(value := entry.current.value + 1));
        }
        if entry.current.value == entry.ready.value {
          entry := entry.(isBypassible := true);
        }
        scoreboard[r] := entry;
      }
      if operationLatency != 0 {
        operationLatency := operationLatency - 1;
      }
      assert scoreboard[..] == Updated(old(State()), longLatency).scoreboard;
    }

    method TraceNewInstr(i: Instr)
      requires Valid()
      modifies scoreboard, this`operationLatency
      ensures State() == Traced(old(State()), i, longLatency)
    {
      operationLatency := Latency(i, longLatency);
      if i.dst0 != ZERO {
        scoreboard[i.dst0] := TracedFirst(scoreboard[i.dst0], i, longLatency);
      }
      if i.dst1 != ZERO {
        scoreboard[i.dst1] := TracedSecond(scoreboard[i.dst1], i);
      }
    }

    method HandleFlush()
      requires Valid()
      modifies scoreboard, this`operationLatency
      ensures State() == Flushed(old(State()))
    {
      for r := 0 to MAX_REG
        invariant forall k :: 0 <= k < r ==> scoreboard[k] == FlushedEntry(old(scoreboard[k]))
        invariant forall k :: r <= k < MAX_REG ==> scoreboard[k] == old(scoreboard[k])
      {
        if scoreboard[r].isTraced {
          scoreboard[r] := UNTRACED;
        }
      }
      operationLatency := 0;
      assert scoreboard[..] == Flushed(old(State())).scoreboard;
    }

    method IsInRF(r: Register) returns (b: bool)
      requires Valid()
      ensures b == State().scoreboard[r].InRF()
    {
      b := scoreboard[r].InRF();
    }

    method IsBypassible(r: Register) returns (b: bool)
      requires Valid()
      ensures b == State().scoreboard[r].isBypassible
    {
      b := scoreboard[r].isBypassible;
    }

    method MustStall(i: Instr) returns (b: bool)
      requires Valid()
      ensures b == IsStall(State(), i, longLatency)
    {
      var latency := Latency(i, longLatency);
      b := (!scoreboard[i.src0].InRF() && !scoreboard[i.src0].isBypassible)
        || (!scoreboard[i.src1].InRF() && !scoreboard[i.src1].isBypassible)
        || (latency < operationLatency && 1 < operationLatency);
    }

    method GetBypassCommand(r: Register) returns (c: BypassCommand)
      requires Valid()
      ensures c == Command(State(), r, longLatency)
    {
      c := BypassCommand(scoreboard[r].current, longLatency - 1);
    }
  }
}
