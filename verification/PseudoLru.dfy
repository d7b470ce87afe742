/** Tree-based pseudo-LRU replacement: the node array is a binary tree in heap order whose leaves
    are the ways. The properties are proved on the tree; the array is proved to be that tree. */
module PseudoLru {
  import opened Powers

  datatype Flags = Left | Right

  // ---- The policy as a tree ----

  datatype Tree = Leaf | Node(flag: Flags, left: Tree, right: Tree)

  /** A full tree of height `d`. */
  predicate Full(t: Tree, d: nat) {
    match t
    case Leaf => d == 0
    case Node(_, l, r) => d > 0 && Full(l, d - 1) && Full(r, d - 1)
  }

  /** The way the flags lead to. */
  function Pointed(t: Tree, d: nat): (w: nat)
    requires Full(t, d)
    ensures w < Pow2(d)
    decreases t
  {
    match t
    case Leaf => 0
    case Node(flag, l, r) => if flag.Left? then Pointed(l, d - 1) else Pow2(d - 1) + Pointed(r, d - 1)
  }

  /** All nodes on the path of a way turn away from it. */
  function Touched(t: Tree, d: nat, way: nat): (t': Tree)
    requires Full(t, d) && way < Pow2(d)
    ensures Full(t', d)
    decreases t
  {
    match t
    case Leaf => Leaf
    case Node(_, l, r) =>
      if way < Pow2(d - 1) then Node(Right, Touched(l, d - 1, way), r)
      else Node(Left, l, Touched(r, d - 1, way - Pow2(d - 1)))
  }

  function Updated(t: Tree, d: nat): (t': Tree)
    requires Full(t, d)
    ensures Full(t', d)
  {
    Touched(t, d, Pointed(t, d))
  }

  function UpdatedTimes(t: Tree, d: nat, n: nat): (t': Tree)
    requires Full(t, d)
    ensures Full(t', d)
  {
    if n == 0 then t else Updated(UpdatedTimes(t, d, n - 1), d)
  }

  /** The way returned by update number `i`, counting from zero. */
  function Returned(t: Tree, d: nat, i: nat): (w: nat)
    requires Full(t, d)
    ensures w < Pow2(d)
  {
    Pointed(UpdatedTimes(t, d, i), d)
  }

  function Turned(flag: Flags): Flags {
    if flag.Left? then Right else Left
  }

  /** Updates of a tree take turns on its two subtrees. */
  lemma {:induction false} UpdatesAlternate(t: Tree, d: nat, n: nat)
    requires Full(t, d) && d > 0
    ensures UpdatedTimes(t, d, n) == Node(
      if n % 2 == 0 then t.flag else Turned(t.flag),
      UpdatedTimes(t.left, d - 1, if t.flag.Left? then (n + 1) / 2 else n / 2),
      UpdatedTimes(t.right, d - 1, if t.flag.Left? then n / 2 else (n + 1) / 2))
  {
    if n > 0 {
      UpdatesAlternate(t, d, n - 1);
    }
  }

  lemma ReturnedAlternates(t: Tree, d: nat, i: nat)
    requires Full(t, d) && d > 0
    ensures Returned(t, d, i) == if t.flag.Left? == (i % 2 == 0)
                                 then Returned(t.left, d - 1, i / 2)
                                 else Pow2(d - 1) + Returned(t.right, d - 1, i / 2)
  {
    hide UpdatedTimes, Pow2;
    UpdatesAlternate(t, d, i);
    if i % 2 == 1 {
      assert (i + 1) / 2 == i / 2 + 1;
    } else {
      assert (i + 1) / 2 == i / 2;
    }
  }

  /** As many updates as there are ways restore the tree. */
  lemma {:induction false} FullRoundRestores(t: Tree, d: nat)
    requires Full(t, d)
    ensures UpdatedTimes(t, d, Pow2(d)) == t
    decreases t
  {
    if d > 0 {
      UpdatesAlternate(t, d, Pow2(d));
      FullRoundRestores(t.left, d - 1);
      FullRoundRestores(t.right, d - 1);
    } else {
      assert UpdatedTimes(t, d, 1) == Updated(UpdatedTimes(t, d, 0), d);
    }
  }

  /** Within such a round every way is returned. */
  lemma {:induction false} EveryWayReturned(t: Tree, d: nat, w: nat) returns (i: nat)
    requires Full(t, d) && w < Pow2(d)
    ensures i < Pow2(d) && Returned(t, d, i) == w
    decreases t
  {
    if d == 0 {
      i := 0;
    } else if w < Pow2(d - 1) {
      var j := EveryWayReturned(t.left, d - 1, w);
      i := if t.flag.Left? then 2 * j else 2 * j + 1;
      ReturnedAlternates(t, d, i);
    } else {
      var j := EveryWayReturned(t.right, d - 1, w - Pow2(d - 1));
      i := if t.flag.Left? then 2 * j + 1 else 2 * j;
      ReturnedAlternates(t, d, i);
    }
  }

  /** And none is returned twice. */
  lemma {:induction false} NoWayReturnedTwice(t: Tree, d: nat, i: nat, j: nat)
    requires Full(t, d) && i < j < Pow2(d)
    ensures Returned(t, d, i) != Returned(t, d, j)
    decreases t
  {
    if d > 0 {
      ReturnedAlternates(t, d, i);
      ReturnedAlternates(t, d, j);
      if i % 2 == j % 2 {
        if t.flag.Left? == (i % 2 == 0) {
          NoWayReturnedTwice(t.left, d - 1, i / 2, j / 2);
        } else {
          NoWayReturnedTwice(t.right, d - 1, i / 2, j / 2);
        }
      }
    }
  }

  /** From any state, `ways` consecutive updates return every way exactly once and restore the tree. */
  lemma RoundOfUpdates(t: Tree, d: nat, w: nat) returns (i: nat)
    requires Full(t, d) && w < Pow2(d)
    ensures UpdatedTimes(t, d, Pow2(d)) == t
    ensures i < Pow2(d) && Returned(t, d, i) == w
    ensures forall j: nat :: j < Pow2(d) && Returned(t, d, j) == w ==> j == i
  {
    hide *;
    FullRoundRestores(t, d);
    i := EveryWayReturned(t, d, w);
    forall j: nat | j < Pow2(d) && j != i ensures Returned(t, d, j) != w {
      if j < i {
        NoWayReturnedTwice(t, d, j, i);
      } else {
        NoWayReturnedTwice(t, d, i, j);
      }
    }
  }

  // ---- How long a touched way is safe ----

  /** How many nodes on the path of a way point towards it. */
  function Towards(t: Tree, d: nat, way: nat): (n: nat)
    requires Full(t, d) && way < Pow2(d)
    ensures n <= d
    decreases t
  {
    match t
    case Leaf => 0
    case Node(flag, l, r) =>
      if way < Pow2(d - 1)
      then Towards(l, d - 1, way) + (if flag.Left? then 1 else 0)
      else Towards(r, d - 1, way - Pow2(d - 1)) + (if flag.Right? then 1 else 0)
  }

  /** A way is the next victim exactly if its whole path points towards it. */
  lemma {:induction false} PointedIffTowards(t: Tree, d: nat, way: nat)
    requires Full(t, d) && way < Pow2(d)
    ensures Pointed(t, d) == way <==> Towards(t, d, way) == d
    decreases t
  {
    if d > 0 {
      if way < Pow2(d - 1) {
        PointedIffTowards(t.left, d - 1, way);
      } else {
        PointedIffTowards(t.right, d - 1, way - Pow2(d - 1));
      }
    }
  }

  lemma {:induction false} TouchTurnsAway(t: Tree, d: nat, way: nat)
    requires Full(t, d) && way < Pow2(d)
    ensures Towards(Touched(t, d, way), d, way) == 0
    decreases t
  {
    if d > 0 {
      if way < Pow2(d - 1) {
        TouchTurnsAway(t.left, d - 1, way);
      } else {
        TouchTurnsAway(t.right, d - 1, way - Pow2(d - 1));
      }
    }
  }

  /** Touching another way turns at most one node towards this one. */
  lemma {:induction false} OtherTurnsOne(t: Tree, d: nat, way: nat, other: nat)
    requires Full(t, d) && way < Pow2(d) && other < Pow2(d) && way != other
    ensures Towards(Touched(t, d, other), d, way) <= Towards(t, d, way) + 1
    decreases t
  {
    if d > 0 {
      var half := Pow2(d - 1);
      if way < half && other < half {
        OtherTurnsOne(t.left, d - 1, way, other);
      } else if way >= half && other >= half {
        OtherTurnsOne(t.right, d - 1, way - half, other - half);
      }
    }
  }

  datatype Operation = Update | Touch(way: nat)

  function Performed(t: Tree, d: nat, ops: seq<Operation>): (t': Tree)
    requires Full(t, d) && forall op :: op in ops && op.Touch? ==> op.way < Pow2(d)
    ensures Full(t', d)
    decreases |ops|
  {
    if ops == [] then t else
      var before := Performed(t, d, ops[..|ops| - 1]);
      match ops[|ops| - 1]
      case Update => Updated(before, d)
      case Touch(way) => Touched(before, d, way)
  }

  /** After a touch, no update returns the way while fewer than `d` other operations have passed. */
  lemma {:induction false} TouchedIsSafe(t: Tree, d: nat, way: nat, ops: seq<Operation>)
    requires Full(t, d) && way < Pow2(d) && |ops| < d
    requires forall op :: op in ops && op.Touch? ==> op.way < Pow2(d) && op.way != way
    ensures Towards(Performed(Touched(t, d, way), d, ops), d, way) <= |ops|
    ensures Pointed(Performed(Touched(t, d, way), d, ops), d) != way
    decreases |ops|
  {
    hide Touched, Towards, Pointed, Pow2;
    var t' := Touched(t, d, way);
    if ops == [] {
      TouchTurnsAway(t, d, way);
    } else {
      var n := |ops| - 1;
      TouchedIsSafe(t, d, way, ops[..n]);
      var before := Performed(t', d, ops[..n]);
      OtherTurnsOne(before, d, way, if ops[n].Update? then Pointed(before, d) else ops[n].way);
    }
    PointedIffTowards(Performed(t', d, ops), d, way);
  }

  // ---- The node array ----

  /** `get_direction_to_prev_node`: the flag that leads from the parent to this node. */
  function DirectionFrom(node: nat): Flags {
    if node % 2 != 0 then Left else Right
  }

  function NextNode(nodes: seq<Flags>, node: nat): nat
    requires node < |nodes|
  {
    node * 2 + if nodes[node].Left? then 1 else 2
  }

  /** The part of the array that hangs under node `v`, `d` levels deep. */
  ghost predicate Fits(size: nat, v: nat, d: nat) {
    (v + 2) * Pow2(d) <= 2 * (size + 1)
  }

  lemma FitsBelow(size: nat, v: nat, d: nat)
    requires Fits(size, v, d) && d > 0
    ensures v < size && Fits(size, 2 * v + 1, d - 1) && Fits(size, 2 * v + 2, d - 1)
  {
    var p := Pow2(d - 1);
    assert Pow2(d) == 2 * p;
    assert (v + 2) * (2 * p) == 2 * ((v + 2) * p) == (2 * v + 4) * p;
    assert (2 * v + 3) * p <= (2 * v + 4) * p;
    assert (v + 2) * p >= v + 2;
  }

  ghost function TreeOf(nodes: seq<Flags>, v: nat, d: nat): (t: Tree)
    requires Fits(|nodes|, v, d)
    ensures Full(t, d)
    decreases d
  {
    if d == 0 then Leaf else
      FitsBelow(|nodes|, v, d);
      Node(nodes[v], TreeOf(nodes, 2 * v + 1, d - 1), TreeOf(nodes, 2 * v + 2, d - 1))
  }

  /** Walking up from `x` passes `v`. */
  ghost predicate Under(v: nat, x: nat) {
    x == v || (x > v && Under(v, (x - 1) / 2))
  }

  lemma {:induction false} UnderChild(v: nat, c: nat, x: nat)
    requires Under(c, x) && (c == 2 * v + 1 || c == 2 * v + 2)
    ensures Under(v, x) && x > v
    decreases x
  {
    if x != c {
      UnderChild(v, c, (x - 1) / 2);
    }
  }

  lemma {:induction false} SiblingsApart(v: nat, x: nat)
    ensures !(Under(2 * v + 1, x) && Under(2 * v + 2, x))
    decreases x
  {
    if x > 2 * v + 2 {
      SiblingsApart(v, (x - 1) / 2);
    }
  }

  lemma {:induction false} SameTree(a: seq<Flags>, b: seq<Flags>, v: nat, d: nat)
    requires |a| == |b| && Fits(|a|, v, d)
    requires forall x: nat :: x < |a| && Under(v, x) ==> a[x] == b[x]
    ensures TreeOf(a, v, d) == TreeOf(b, v, d)
    decreases d
  {
    hide Fits, Under;
    if d > 0 {
      FitsBelow(|a|, v, d);
      forall c: nat, x: nat | (c == 2 * v + 1 || c == 2 * v + 2) && x < |a| && Under(c, x)
        ensures a[x] == b[x]
      {
        UnderChild(v, c, x);
      }
      assert Under(v, v) by { UnderSelf(v); }
      SameTree(a, b, 2 * v + 1, d - 1);
      SameTree(a, b, 2 * v + 2, d - 1);
    }
  }

  lemma UnderSelf(v: nat)
    ensures Under(v, v)
  {
  }

  /** The loop of `touch`, from a node to the root. */
  function TouchedUp(nodes: seq<Flags>, node: nat): (r: seq<Flags>)
    requires node <= 2 * |nodes|
    ensures |r| == |nodes|
    decreases node
  {
    if node == 0 then nodes else
      var parent := (node - 1) / 2;
      TouchedUp(if DirectionFrom(node) == nodes[parent] then nodes[parent := Turned(nodes[parent])] else nodes, parent)
  }

  /** The same turns made on the way down from `v` to a way under it. */
  ghost function TouchedDown(nodes: seq<Flags>, v: nat, d: nat, way: nat): (r: seq<Flags>)
    requires Fits(|nodes|, v, d) && way < Pow2(d)
    ensures |r| == |nodes|
    ensures forall x: nat :: x < |nodes| && !Under(v, x) ==> r[x] == nodes[x]
    decreases d
  {
    if d == 0 then nodes else
      FitsBelow(|nodes|, v, d);
      var half := Pow2(d - 1);
      UnderSelf(v);
      ChildOutside(v);
      if way < half then TouchedDown(nodes, 2 * v + 1, d - 1, way)[v := Right]
      else TouchedDown(nodes, 2 * v + 2, d - 1, way - half)[v := Left]
  }

  lemma ChildOutside(v: nat)
    ensures forall c: nat, x: nat :: (c == 2 * v + 1 || c == 2 * v + 2) && Under(c, x) ==> Under(v, x) && x > v
  {
    forall c: nat, x: nat | (c == 2 * v + 1 || c == 2 * v + 2) && Under(c, x) ensures Under(v, x) && x > v {
      UnderChild(v, c, x);
    }
  }

  /** The array after a touch is the touched tree. */
  lemma {:induction false} DownIsTouched(nodes: seq<Flags>, v: nat, d: nat, way: nat)
    requires Fits(|nodes|, v, d) && way < Pow2(d)
    ensures TreeOf(TouchedDown(nodes, v, d, way), v, d) == Touched(TreeOf(nodes, v, d), d, way)
    decreases d
  {
    hide Fits, Under;
    if d > 0 {
      FitsBelow(|nodes|, v, d);
      ChildOutside(v);
      var half := Pow2(d - 1);
      var r := TouchedDown(nodes, v, d, way);
      var left, right := 2 * v + 1, 2 * v + 2;
      forall x: nat | Under(left, x) ensures !Under(right, x) {
        SiblingsApart(v, x);
      }
      if way < half {
        var inner := TouchedDown(nodes, 2 * v + 1, d - 1, way);
        DownIsTouched(nodes, 2 * v + 1, d - 1, way);
        SameTree(inner, r, 2 * v + 1, d - 1);
        SameTree(nodes, r, 2 * v + 2, d - 1);
      } else {
        var inner := TouchedDown(nodes, 2 * v + 2, d - 1, way - half);
        DownIsTouched(nodes, 2 * v + 2, d - 1, way - half);
        SameTree(inner, r, 2 * v + 2, d - 1);
        SameTree(nodes, r, 2 * v + 1, d - 1);
      }
    }
  }

  /** The leaf of a way under node `v`. */
  function LeafUnder(v: nat, d: nat, way: nat): (node: nat)
    ensures node >= v
  {
    LeafBound(v, d);
    (v + 1) * Pow2(d) - 1 + way
  }

  lemma LeafBound(v: nat, d: nat)
    ensures (v + 1) * Pow2(d) >= v + 1
  {
    var p := Pow2(d);
    assert (v + 1) * (p - 1) >= 0;
  }

  lemma LeafOfChild(v: nat, d: nat, way: nat)
    requires d > 0
    ensures way < Pow2(d - 1) ==> LeafUnder(v, d, way) == LeafUnder(2 * v + 1, d - 1, way)
    ensures way >= Pow2(d - 1) ==> LeafUnder(v, d, way) == LeafUnder(2 * v + 2, d - 1, way - Pow2(d - 1))
  {
    var p := Pow2(d - 1);
    assert (v + 1) * (2 * p) == (2 * v + 2) * p;
    assert (2 * v + 3) * p == (2 * v + 2) * p + p;
  }

  /** The loop of `touch` from the leaf of a way up is the turning on the way down. */
  lemma {:induction false} UpIsDown(nodes: seq<Flags>, v: nat, d: nat, way: nat)
    requires Fits(|nodes|, v, d) && way < Pow2(d) && LeafUnder(v, d, way) <= 2 * |nodes|
    ensures v <= 2 * |nodes|
    ensures TouchedUp(nodes, LeafUnder(v, d, way)) == TouchedUp(TouchedDown(nodes, v, d, way), v)
    decreases d
  {
    hide Fits, LeafUnder, Under, TouchedUp, TouchedDown;
    if d == 0 {
      assert LeafUnder(v, 0, 0) == v by { LeafOfItself(v); }
      assert TouchedDown(nodes, v, d, way) == nodes by { DownStep(nodes, v, d, way); }
    } else {
      FitsBelow(|nodes|, v, d);
      LeafOfChild(v, d, way);
      DownStep(nodes, v, d, way);
      var half := Pow2(d - 1);
      assert Pow2(d) == 2 * half;
      hide Pow2;
      if way < half {
        UpIsDown(nodes, 2 * v + 1, d - 1, way);
        TurnAtParent(TouchedDown(nodes, 2 * v + 1, d - 1, way), v, 2 * v + 1);
      } else {
        UpIsDown(nodes, 2 * v + 2, d - 1, way - half);
        TurnAtParent(TouchedDown(nodes, 2 * v + 2, d - 1, way - half), v, 2 * v + 2);
      }
    }
  }

  lemma DownStep(nodes: seq<Flags>, v: nat, d: nat, way: nat)
    requires Fits(|nodes|, v, d) && way < Pow2(d)
    ensures d == 0 ==> TouchedDown(nodes, v, d, way) == nodes
    ensures d > 0 ==>
      && v < |nodes| && Fits(|nodes|, 2 * v + 1, d - 1) && Fits(|nodes|, 2 * v + 2, d - 1)
      && TouchedDown(nodes, v, d, way)
         == if way < Pow2(d - 1) then TouchedDown(nodes, 2 * v + 1, d - 1, way)[v := Right]
            else TouchedDown(nodes, 2 * v + 2, d - 1, way - Pow2(d - 1))[v := Left]
  {
    hide Fits;
    if d > 0 {
      FitsBelow(|nodes|, v, d);
    }
  }

  lemma LeafOfItself(v: nat)
    ensures LeafUnder(v, 0, 0) == v
  {
    assert (v + 1) * 1 == v + 1;
  }

  lemma TurnAtParent(nodes: seq<Flags>, v: nat, c: nat)
    requires (c == 2 * v + 1 || c == 2 * v + 2) && c <= 2 * |nodes|
    ensures TouchedUp(nodes, c) == TouchedUp(nodes[v := if c == 2 * v + 1 then Right else Left], v)
  {
    assert (c - 1) / 2 == v;
    var turned := if DirectionFrom(c) == nodes[v] then nodes[v := Turned(nodes[v])] else nodes;
    assert turned == nodes[v := if c == 2 * v + 1 then Right else Left];
  }

  /** No node of the array is below this level. */
  ghost predicate Bottom(size: nat, v: nat, d: nat) {
    (v + 1) * Pow2(d) > size
  }

  lemma BottomBelow(size: nat, v: nat, d: nat)
    requires Bottom(size, v, d) && d > 0
    ensures Bottom(size, 2 * v + 1, d - 1) && Bottom(size, 2 * v + 2, d - 1)
  {
    var p := Pow2(d - 1);
    assert (v + 1) * (2 * p) == (2 * v + 2) * p;
    assert (2 * v + 3) * p == (2 * v + 2) * p + p;
  }

  /** The loop of `update`: following the flags down to a leaf. */
  function Descended(nodes: seq<Flags>, node: nat): (leaf: nat)
    ensures leaf >= |nodes|
    decreases if node < |nodes| then |nodes| - node else 0
  {
    if node < |nodes| then Descended(nodes, NextNode(nodes, node)) else node
  }

  lemma {:induction false} DescendedIsPointed(nodes: seq<Flags>, v: nat, d: nat)
    requires Fits(|nodes|, v, d) && Bottom(|nodes|, v, d)
    ensures Descended(nodes, v) == LeafUnder(v, d, Pointed(TreeOf(nodes, v, d), d))
    decreases d
  {
    hide Fits, Bottom, LeafUnder;
    if d == 0 {
      LeafOfItself(v);
      assert v >= |nodes| by { BottomAtLeaf(|nodes|, v); }
    } else {
      FitsBelow(|nodes|, v, d);
      BottomBelow(|nodes|, v, d);
      var t := TreeOf(nodes, v, d);
      LeafOfChild(v, d, Pointed(t, d));
      DescendedIsPointed(nodes, 2 * v + (if nodes[v].Left? then 1 else 2), d - 1);
    }
  }

  lemma BottomAtLeaf(size: nat, v: nat)
    requires Bottom(size, v, 0)
    ensures v >= size
  {
    assert (v + 1) * 1 == v + 1;
  }

  // ---- The whole array ----

  ghost predicate IsTree(nodes: seq<Flags>, d: nat) {
    |nodes| == Pow2(d) - 1
  }

  lemma Root(nodes: seq<Flags>, d: nat)
    requires IsTree(nodes, d)
    ensures Fits(|nodes|, 0, d) && Bottom(|nodes|, 0, d)
    ensures forall way: nat :: LeafUnder(0, d, way) == way + |nodes|
  {
  }

  ghost function Abstract(nodes: seq<Flags>, d: nat): (t: Tree)
    requires IsTree(nodes, d)
    ensures Full(t, d)
  {
    Root(nodes, d);
    TreeOf(nodes, 0, d)
  }

  /** Touching in the array is touching in the tree. */
  lemma TouchRefines(nodes: seq<Flags>, d: nat, way: nat)
    requires IsTree(nodes, d) && way < Pow2(d)
    ensures IsTree(TouchedUp(nodes, way + |nodes|), d)
    ensures Abstract(TouchedUp(nodes, way + |nodes|), d) == Touched(Abstract(nodes, d), d, way)
  {
    hide Fits, Bottom, LeafUnder, TouchedDown, TreeOf;
    Root(nodes, d);
    UpIsDown(nodes, 0, d, way);
    DownIsTouched(nodes, 0, d, way);
  }

  /** The leaf the array's flags lead to is the way the tree points to. */
  lemma UpdateRefines(nodes: seq<Flags>, d: nat)
    requires IsTree(nodes, d)
    ensures Descended(nodes, 0) == Pointed(Abstract(nodes, d), d) + |nodes|
  {
    hide Fits, Bottom, LeafUnder, Descended, TreeOf;
    Root(nodes, d);
    DescendedIsPointed(nodes, 0, d);
  }

  /** The tree determines the array. */
  lemma {:induction false} AbstractInjective(a: seq<Flags>, b: seq<Flags>, v: nat, d: nat, x: nat)
    requires |a| == |b| && Fits(|a|, v, d) && Bottom(|a|, v, d)
    requires TreeOf(a, v, d) == TreeOf(b, v, d) && x < |a| && Under(v, x)
    ensures a[x] == b[x]
    decreases d
  {
    hide Fits, Bottom;
    if d == 0 {
      BottomAtLeaf(|a|, v);
      UnderAbove(v, x);
    } else if x != v {
      FitsBelow(|a|, v, d);
      BottomBelow(|a|, v, d);
      var c := UnderSomeChild(v, x);
      AbstractInjective(a, b, c, d - 1, x);
    }
  }

  lemma {:induction false} UnderAbove(v: nat, x: nat)
    requires Under(v, x)
    ensures x >= v
  {
  }

  lemma {:induction false} UnderSomeChild(v: nat, x: nat) returns (c: nat)
    requires Under(v, x) && x != v
    ensures (c == 2 * v + 1 || c == 2 * v + 2) && Under(c, x)
    decreases x
  {
    var p := (x - 1) / 2;
    if p == v {
      c := x;
    } else {
      c := UnderSomeChild(v, p);
    }
  }

  lemma {:induction false} UnderRoot(x: nat)
    ensures Under(0, x)
  {
    if x > 0 {
      UnderRoot((x - 1) / 2);
    }
  }

  lemma SameAbstract(a: seq<Flags>, b: seq<Flags>, d: nat)
    requires IsTree(a, d) && IsTree(b, d) && Abstract(a, d) == Abstract(b, d)
    ensures a == b
  {
    hide Fits, Bottom, TreeOf, Under;
    Root(a, d);
    forall x: nat | x < |a| ensures a[x] == b[x] {
      UnderRoot(x);
      AbstractInjective(a, b, 0, d, x);
    }
  }

  /** `update` on the array. */
  function NodesUpdated(nodes: seq<Flags>, d: nat): (r: seq<Flags>)
    requires IsTree(nodes, d)
    ensures IsTree(r, d)
  {
    UpdateRefines(nodes, d);
    TouchedUp(nodes, Descended(nodes, 0))
  }

  function NodesUpdatedTimes(nodes: seq<Flags>, d: nat, n: nat): (r: seq<Flags>)
    requires IsTree(nodes, d)
    ensures IsTree(r, d)
  {
    if n == 0 then nodes else NodesUpdated(NodesUpdatedTimes(nodes, d, n - 1), d)
  }

  lemma {:induction false} UpdatesRefine(nodes: seq<Flags>, d: nat, n: nat)
    requires IsTree(nodes, d)
    ensures Abstract(NodesUpdatedTimes(nodes, d, n), d) == UpdatedTimes(Abstract(nodes, d), d, n)
  {
    hide Abstract, IsTree, TouchedUp, Descended, Touched, Pointed;
    if n > 0 {
      UpdatesRefine(nodes, d, n - 1);
      var before := NodesUpdatedTimes(nodes, d, n - 1);
      UpdateRefines(before, d);
      TouchRefines(before, d, Pointed(Abstract(before, d), d));
    }
  }

  /** From any node array, as many updates as there are ways bring the array back and return each way
      at exactly one of them. */
  lemma RoundRestoresNodes(nodes: seq<Flags>, d: nat, way: nat) returns (i: nat)
    requires IsTree(nodes, d) && way < Pow2(d)
    ensures NodesUpdatedTimes(nodes, d, Pow2(d)) == nodes
    ensures i < Pow2(d) && Descended(NodesUpdatedTimes(nodes, d, i), 0) - |nodes| == way
    ensures forall j: nat :: j < Pow2(d) && j != i ==> Descended(NodesUpdatedTimes(nodes, d, j), 0) - |nodes| != way
  {
    hide Abstract, Descended, NodesUpdatedTimes, UpdatedTimes, Pointed;
    var t := Abstract(nodes, d);
    i := RoundOfUpdates(t, d, way);
    UpdatesRefine(nodes, d, Pow2(d));
    SameAbstract(NodesUpdatedTimes(nodes, d, Pow2(d)), nodes, d);
    forall j: nat ensures Descended(NodesUpdatedTimes(nodes, d, j), 0) == Returned(t, d, j) + |nodes| {
      UpdatesRefine(nodes, d, j);
      UpdateRefines(NodesUpdatedTimes(nodes, d, j), d);
    }
  }
}
