/** What the ports promise: a value written at cycle c is to be read at cycle c + latency, in the
    order of writing, and not later. */
module PortTiming {

  /** A value and the cycle at which it is due. */
  datatype Entry<T> = Entry(value: T, due: nat)

  ghost predicate Sorted<T>(log: seq<Entry<T>>) {
    forall i, j :: 0 <= i <= j < |log| ==> log[i].due <= log[j].due
  }

  /** How many entries are due before a cycle. */
  function Before<T>(log: seq<Entry<T>>, cycle: nat): (n: nat)
    ensures n <= |log|
  {
    if log == [] then 0 else
      Before(log[..|log| - 1], cycle) + if log[|log| - 1].due < cycle then 1 else 0
  }

  /** In a log by due cycle, those are the first ones. */
  lemma {:induction false} BeforeIsPrefix<T>(log: seq<Entry<T>>, cycle: nat)
    requires Sorted(log)
    ensures forall i :: 0 <= i < Before(log, cycle) ==> log[i].due < cycle
    ensures forall i :: Before(log, cycle) <= i < |log| ==> log[i].due >= cycle
    decreases |log|
  {
    if log != [] {
      var n := |log| - 1;
      BeforeIsPrefix(log[..n], cycle);
    }
  }

  lemma {:induction false} BeforeMonotonic<T>(log: seq<Entry<T>>, c: nat, d: nat)
    requires c <= d
    ensures Before(log, c) <= Before(log, d)
    decreases |log|
  {
    if log != [] {
      BeforeMonotonic(log[..|log| - 1], c, d);
    }
  }

  lemma BeforeAppended<T>(log: seq<Entry<T>>, e: Entry<T>, cycle: nat)
    ensures Before(log + [e], cycle) == Before(log, cycle) + if e.due < cycle then 1 else 0
  {
    assert (log + [e])[..|log|] == log;
  }

  /** How many entries are due at a cycle. */
  function DueCount<T>(log: seq<Entry<T>>, cycle: nat): nat {
    BeforeMonotonic(log, cycle, cycle + 1);
    Before(log, cycle + 1) - Before(log, cycle)
  }

  /** The values that are due at a cycle, in the order of writing. */
  function DueAt<T>(log: seq<Entry<T>>, cycle: nat): (values: seq<T>) {
    if log == [] then [] else
      var e := log[|log| - 1];
      DueAt(log[..|log| - 1], cycle) + if e.due == cycle then [e.value] else []
  }

  lemma {:induction false} DueAtCounted<T>(log: seq<Entry<T>>, cycle: nat)
    ensures |DueAt(log, cycle)| == DueCount(log, cycle)
    decreases |log|
  {
    if log != [] {
      DueAtCounted(log[..|log| - 1], cycle);
    }
  }

  /** The values due at a cycle stand together in the log. */
  lemma {:induction false} DueAtIndex<T>(log: seq<Entry<T>>, cycle: nat, k: nat)
    requires Sorted(log) && k < DueCount(log, cycle)
    ensures |DueAt(log, cycle)| == DueCount(log, cycle)
    ensures Before(log, cycle) + k < |log|
    ensures log[Before(log, cycle) + k] == Entry(DueAt(log, cycle)[k], cycle)
    decreases |log|
  {
    DueAtCounted(log, cycle);
    BeforeIsPrefix(log, cycle);
    BeforeIsPrefix(log, cycle + 1);
    var n := |log| - 1;
    DueAtCounted(log[..n], cycle);
    if k < DueCount(log[..n], cycle) {
      DueAtIndex(log[..n], cycle, k);
    }
  }

  /** What a reader's queue holds at a cycle at which `taken` values have been read. */
  ghost function Pending<T>(log: seq<Entry<T>>, cycle: nat, taken: nat): seq<Entry<T>>
    requires taken <= DueCount(log, cycle)
  {
    BeforeMonotonic(log, cycle, cycle + 1);
    log[Before(log, cycle) + taken..]
  }

  /** There a queue of `capacity` slots has a free one. */
  ghost predicate Room<T>(log: seq<Entry<T>>, cycle: nat, taken: nat, capacity: nat) {
    taken <= DueCount(log, cycle) && |Pending(log, cycle, taken)| < capacity
  }
}
