/** One cycle extends the history and keeps it in order. The lemmas speak of the next state through
    the few fields they need. */
module StepRecord {
  import opened Operations
  import opened Options
  import opened Scoreboard
  import opened Pipeline
  import opened Timeline
  import opened Invariant
  import opened Scheduling

  /** A cycle without a misprediction appends its issue; a misprediction takes back the last two. */
  ghost predicate Grows(h: History, h': History, c: int, issue: Option<Instr>, miss: bool) {
    && |h| == c && |h'| == c + 1
    && AgreeUpto(h, h', c - 1)
    && (!miss ==> AgreeUpto(h, h', c) && Slot(h', c) == issue)
    && (miss ==> Slot(h', c) == None && Slot(h', c - 1) == None)
  }

  lemma HistoryGrows(s: Core, s': Core, issue: Option<Instr>, miss: bool)
    requires |s.issued| == s.cycle && (forall f :: f in s.misses ==> f < s.cycle)
    requires s'.issued == s.issued + [issue]
    requires s'.misses == if miss then s.misses + {s.cycle} else s.misses
    ensures Grows(Surviving(s), Surviving(s'), s.cycle, issue, miss)
  {
  }

  lemma NotStalled(s: Core, fetched: Option<Instr>)
    requires IssuedInstr(s, fetched).Some?
    ensures !s.flushAll && !IsStall(BypassInDecode(s), IssuedInstr(s, fetched).value, s.longLatency)
    ensures DecodeInput(s, fetched) == IssuedInstr(s, fetched)
    ensures Decode(s, fetched).stalled == None
  {
  }

  /** The latency counter in decode, after the update and the trace of the last issue. */
  lemma CounterInDecode(s: Core)
    ensures !s.flushAll ==>
      BypassInDecode(s).operationLatency ==
        if s.notify.Some? then Latency(s.notify.value, s.longLatency)
        else if s.bypass.operationLatency > 0 then s.bypass.operationLatency - 1 else 0
    ensures s.flushAll ==> BypassInDecode(s).operationLatency == 0
  {
  }

  lemma LatencyKept(s: Core, h: History, h': History, issue: Option<Instr>, miss: bool, counter: int, t: int)
    requires |h| == s.cycle && InOrder(h, s.longLatency) && LatencyOk(s, h) && FlushOk(s, h)
    requires !s.flushAll ==> s.notify == Slot(h, s.cycle - 1)
    requires Grows(h, h', s.cycle, issue, miss)
    requires counter == BypassInDecode(s).operationLatency
    requires t < s.cycle && Alive(h', t)
    ensures WritebackCycle(h', t, s.longLatency) <= s.cycle + counter
  {
    hide BypassInDecode;
    CounterInDecode(s);
    assert Slot(h', t) == Slot(h, t);
    assert WritebackCycle(h', t, s.longLatency) == WritebackCycle(h, t, s.longLatency);
    if s.flushAll {
    } else if Alive(h, s.cycle - 1) {
      assert WritebackCycle(h, s.cycle - 1, s.longLatency) == s.cycle + counter;
      assert t < s.cycle - 1 ==> WritebackCycle(h, t, s.longLatency) < WritebackCycle(h, s.cycle - 1, s.longLatency);
    } else {
      assert t < s.cycle - 1;
    }
  }

  /** An instruction that is not stalled will be written back after everything before it. */
  lemma IssueKeepsOrder(s: Core, h: History, i: Instr, t: int)
    requires |h| == s.cycle && InOrder(h, s.longLatency) && LatencyOk(s, h) && FlushOk(s, h)
    requires !s.flushAll && s.notify == Slot(h, s.cycle - 1) && Alive(h, t)
    requires !IsStall(BypassInDecode(s), i, s.longLatency)
    ensures WritebackCycle(h, t, s.longLatency) < s.cycle + Latency(i, s.longLatency) + 1
  {
    assert AgreeUpto(h, h + [None], s.cycle);
    LatencyKept(s, h, h + [None], None, false, BypassInDecode(s).operationLatency, t);
    assert Slot(h + [None], t) == Slot(h, t);
  }

  lemma SameWriteback(h: History, h': History, t: int, l: LongLatency)
    requires Slot(h', t) == Slot(h, t) && Alive(h', t)
    ensures Alive(h, t) && WritebackCycle(h', t, l) == WritebackCycle(h, t, l)
  {
  }

  lemma PairOrdered(s: Core, h: History, h': History, fetched: Option<Instr>, miss: bool, t: int, u: int)
    requires |h| == s.cycle && InOrder(h, s.longLatency) && LatencyOk(s, h) && FlushOk(s, h)
    requires !s.flushAll ==> s.notify == Slot(h, s.cycle - 1)
    requires Grows(h, h', s.cycle, IssuedInstr(s, fetched), miss)
    requires t < u && Alive(h', t) && Alive(h', u)
    ensures WritebackCycle(h', t, s.longLatency) < WritebackCycle(h', u, s.longLatency)
  {
    hide LatencyOk, FlushOk, IssuedInstr, Latency;
    var issue, l := IssuedInstr(s, fetched), s.longLatency;
    assert Slot(h', t) == Slot(h, t);
    if u == s.cycle {
      assert !miss && Slot(h', u) == issue;
      assert WritebackCycle(h', u, l) == s.cycle + Latency(issue.value, l) + 1;
      hide WritebackCycle, InOrder;
      SameWriteback(h, h', t, l);
      NotStalled(s, fetched);
      IssueKeepsOrder(s, h, issue.value, t);
    } else {
      assert Slot(h', u) == Slot(h, u);
      hide WritebackCycle;
      SameWriteback(h, h', t, l);
      SameWriteback(h, h', u, l);
    }
  }

  lemma OrderKept(s: Core, h: History, h': History, fetched: Option<Instr>, miss: bool)
    requires |h| == s.cycle && InOrder(h, s.longLatency) && LatencyOk(s, h) && FlushOk(s, h)
    requires !s.flushAll ==> s.notify == Slot(h, s.cycle - 1)
    requires Grows(h, h', s.cycle, IssuedInstr(s, fetched), miss)
    ensures InOrder(h', s.longLatency)
  {
    hide LatencyOk, FlushOk, IssuedInstr, Grows, WritebackCycle, Alive;
    forall t, u | t < u && Alive(h', t) && Alive(h', u)
      ensures WritebackCycle(h', t, s.longLatency) < WritebackCycle(h', u, s.longLatency)
    {
      PairOrdered(s, h, h', fetched, miss, t, u);
    }
  }

  lemma FlushKept(h: History, h': History, c: int, issue: Option<Instr>, l: LongLatency, t: int)
    requires InOrder(h, l) && BranchAt(h, c - 2) && Grows(h, h', c, issue, true)
    requires Alive(h', t)
    ensures t <= c - 2 && WritebackCycle(h', t, l) <= c + 1
  {
    assert Slot(h', t) == Slot(h, t);
    if t < c - 2 {
      assert WritebackCycle(h, t, l) < WritebackCycle(h, c - 2, l);
    }
  }

  lemma FlushedScoreboard(s: Core, r: Register)
    requires s.flushAll && UntracedOk(s)
    ensures BypassInDecode(s).scoreboard[r] == UNTRACED
  {
    assert UpdatedEntry(s.bypass.scoreboard[r], s.longLatency).isTraced
        || UpdatedEntry(s.bypass.scoreboard[r], s.longLatency) == UNTRACED;
  }

  lemma UntracedKept(s: Core, r: Register)
    requires UntracedOk(s)
    ensures var e := BypassInDecode(s).scoreboard[r]; e.isTraced || e == UNTRACED
  {
    var b := Updated(s.bypass, s.longLatency);
    assert b.scoreboard[r] == UpdatedEntry(s.bypass.scoreboard[r], s.longLatency);
  }

  lemma ScoreboardKept(s: Core, h: History, h': History, issue: Option<Instr>, r: Register)
    requires |h| == s.cycle && Grows(h, h', s.cycle, issue, false)
    requires UntracedOk(s) && FlushOk(s, h) && SecondDestinationSafe(s)
    requires !s.flushAll ==> ScoreboardOk(s, h) && s.notify == Slot(h, s.cycle - 1)
    ensures EntryTracks(UpdatedEntry(BypassInDecode(s).scoreboard[r], s.longLatency),
                        h', s.cycle, r, s.cycle + 1, s.longLatency)
  {
    LastWriterPrefix(h, h', s.cycle, r);
    var p := LastWriter(h, s.cycle, r);
    assert p >= 0 ==> Slot(h', p) == Slot(h, p);
    if s.flushAll {
      FlushedScoreboard(s, r);
    } else {
      TrackedInDecode(s, h, r);
      if p >= 0 && WritebackCycle(h, p, s.longLatency) >= s.cycle {
        UpdateFollows(BypassInDecode(s).scoreboard[r], h[p].value, r, s.cycle - p, s.longLatency);
      }
    }
  }
}
