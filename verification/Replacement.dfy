/** The replacement policies as the objects that the tag arrays drive. */
module Replacement {
  import opened CacheGeometry
  import opened Options
  import opened Powers
  import opened PseudoLru
  import opened Recency
  import opened TagArray

  /** Keeps all ways in a list, the last used at the head. */
  class LRU {
    var list: seq<nat>

    ghost predicate Valid()
      reads this
    {
      Ordered(list, |list|)
    }

    constructor (ways: nat)
      ensures list == InitialOrder(ways)
    {
      var filled := [];
      for i := 0 to ways
        invariant filled == InitialOrder(i)
      {
        filled := [i] + filled;
      }
      list := filled;
    }

    method Touch(way: nat)
      requires way in list
      modifies this
      ensures list == MoveToFront(old(list), way)
    {
      list := [way] + Without(list, IndexOf(list, way));
    }

    method SetToErase(way: nat)
      requires way in list
      modifies this
      ensures list == MoveToBack(old(list), way)
    {
      list := Without(list, IndexOf(list, way)) + [way];
    }

    /** Gives the last way of the list, which becomes the first. */
    method Update() returns (way: nat)
      requires |list| > 0
      modifies this
      ensures way == old(list)[|old(list)| - 1]
      ensures list == MoveToFront(old(list), way)
    {
      way := list[|list| - 1];
      Touch(way);
    }
  }

  /** Keeps one flag for every inner node of a binary tree over the ways. */
  class PseudoLRU {
    const nodes: array<Flags>
    const ways: nat
    ghost const height: nat

    ghost predicate Valid()
      reads this, nodes
    {
      nodes.Length + 1 == ways == Pow2(height)
    }

    ghost function View(): (t: Tree)
      requires Valid()
      reads this, nodes
      ensures Full(t, height)
    {
      Abstract(nodes[..], height)
    }

    constructor (ways: nat)
      requires HasSingleBit(ways)
      ensures Valid() && fresh(nodes) && this.ways == ways
      ensures forall i: nat :: i < nodes.Length ==> nodes[i] == Left
    {
      SingleBitIsPow2(ways);
      ghost var d: nat :| ways == Pow2(d);
      nodes := new Flags[ways - 1](_ => Left);
      this.ways := ways;
      height := d;
    }

    /** A number of ways that is not a power of two is refused. */
    static method Create(ways: nat) returns (policy: Option<PseudoLRU>)
      ensures policy.Some? <==> IsPow2(ways)
      ensures policy.Some? ==> policy.value.Valid() && fresh(policy.value) && fresh(policy.value.nodes)
      ensures policy.Some? ==> policy.value.ways == ways
    {
      SingleBitIsPow2(ways);
      if !HasSingleBit(ways) {
        return None;
      }
      var created := new PseudoLRU(ways);
      policy := Some(created);
    }

    method Touch(way: nat)
      requires Valid() && way < ways
      modifies nodes
      ensures Valid() && nodes[..] == TouchedUp(old(nodes[..]), way + nodes.Length)
      ensures View() == Touched(old(View()), height, way)
    {
      hide Abstract, Touched;
      TouchRefines(nodes[..], height, way);
      var node: nat := way + nodes.Length;
      while node != 0
        invariant node <= 2 * nodes.Length
        invariant TouchedUp(nodes[..], node) == TouchedUp(old(nodes[..]), way + nodes.Length)
      {
        var parent := (node - 1) / 2;
        ghost var before := nodes[..];
        if DirectionFrom(node) == nodes[parent] {
          nodes[parent] := Turned(nodes[parent]);
          assert nodes[..] == before[parent := nodes[parent]];
        }
        node := parent;
      }
    }

    /** Follows the flags to a way and turns them away from it. */
    method Update() returns (way: nat)
      requires Valid()
      modifies nodes
      ensures Valid() && way == Pointed(old(View()), height)
      ensures nodes[..] == NodesUpdated(old(nodes[..]), height)
      ensures View() == Updated(old(View()), height)
    {
      hide Abstract, Touched, Pointed, TouchedUp;
      UpdateRefines(nodes[..], height);
      var node: nat := 0;
      while node < nodes.Length
        invariant Descended(nodes[..], node) == Descended(nodes[..], 0)
        decreases nodes.Length - node
      {
        node := NextNode(nodes[..], node);
      }
      way := node - nodes.Length;
      Touch(way);
    }
  }
}
