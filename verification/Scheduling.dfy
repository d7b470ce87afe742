/** One cycle keeps the scoreboard and the order of write-backs right. */
module Scheduling {
  import opened Operations
  import opened Scoreboard
  import opened Pipeline
  import opened Timeline
  import opened Invariant

  /** An entry moves with its producer, and is reset one cycle after the producer's write-back. */
  lemma UpdateFollows(e: RegisterInfo, i: Instr, r: Register, age: int, l: LongLatency)
    requires EntryMatches(e, i, r, age, l)
    ensures if age == Latency(i, l) + 1 then UpdatedEntry(e, l) == UNTRACED
            else EntryMatches(UpdatedEntry(e, l), i, r, age + 1, l)
  {
  }

  lemma TraceFirst(e: RegisterInfo, i: Instr, l: LongLatency)
    requires i.dst0 != i.dst1
    ensures EntryMatches(TracedFirst(e, i, l), i, i.dst0, 1, l)
  {
  }

  /** The exact condition under which tracing a second destination is right: the entry must not
      have been marked bypassible. */
  lemma TraceSecond(e: RegisterInfo, i: Instr, l: LongLatency)
    ensures EntryMatches(TracedSecond(e, i), i, i.dst1, 1, l) <==> !e.isBypassible
  {
  }

  lemma NewIssueTracked(b: Entries, h: History, n: nat, c: int, r: Register, l: LongLatency)
    requires Alive(h, n) && c == n + 1
    requires EntryTracks(b[r], h, n, r, c, l)
    requires var i := h[n].value; i.dst1 != ZERO ==> !TracedFirstDst(b, i, l)[i.dst1].isBypassible
    ensures var i := h[n].value;
            EntryTracks(TracedSecondDst(TracedFirstDst(b, i, l), i)[r], h, n + 1, r, c, l)
  {
    var i := h[n].value;
    if i.Writes(r) {
      var b1 := TracedFirstDst(b, i, l);
      if r == i.dst1 {
        TraceSecond(b1[r], i, l);
      } else {
        TraceFirst(b[r], i, l);
      }
    }
  }

  /** In decode, once the last issue is traced, the scoreboard tracks everything issued so far. */
  lemma TrackedInDecode(s: Core, h: History, r: Register)
    requires |h| == s.cycle && !s.flushAll && SecondDestinationSafe(s)
    requires ScoreboardOk(s, h) && s.notify == Slot(h, s.cycle - 1)
    ensures EntryTracks(BypassInDecode(s).scoreboard[r], h, s.cycle, r, s.cycle, s.longLatency)
  {
    var b := Updated(s.bypass, s.longLatency);
    assert b.scoreboard[r] == UpdatedEntry(s.bypass.scoreboard[r], s.longLatency);
    if Alive(h, s.cycle - 1) {
      NewIssueTracked(b.scoreboard, h, s.cycle - 1, s.cycle, r, s.longLatency);
    }
  }
}
