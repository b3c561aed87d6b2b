/**
 Walking the range tree from one node to the next.

 As written, a node without a right child looks at most two links up for its
 successor.  This module says from which nodes that is too short, and for
 which trees it matters.
 */
module Iteration {
  import opened Shapes

  function First<V>(t: Shape<V>): Node<V>
    requires t.Fork?
  {
    if t.left.Nil? then t.node else First(t.left)
  }

  /** The node a search up the tree from the hole ends at: the nearest ancestor the hole lies left of. */
  ghost function Above<V>(c: Ctx<V>): Node?<V> {
    match c
    case Whole => null
    case InLeft(_, x, _, _) => x
    case InRight(up, _, _, _) => Above(up)
  }

  /** The entry at a position, or the end. */
  ghost function At<V>(xs: seq<Node<V>>, k: nat): Node?<V> {
    if k < |xs| then xs[k] else null
  }

  /** The hole is the right child of a right child. */
  predicate DeepRight<V>(c: Ctx<V>) {
    c.InRight? && c.up.InRight?
  }

  lemma {:induction false} FirstLeads<V>(t: Shape<V>)
    requires t.Fork?
    ensures InOrder(t) != [] && InOrder(t)[0] == First(t)
  {
    if t.left.Fork? {
      FirstLeads(t.left);
    }
  }

  lemma {:induction false} AboveLeads<V>(c: Ctx<V>)
    ensures Above(c) == At(After(c), 0)
  {
    if c.InRight? {
      AboveLeads(c.up);
    }
  }

  /** The position of a node in the order, and what follows it. */
  lemma SuccessorOf<V>(c: Ctx<V>, t: Shape<V>) returns (k: nat)
    requires t.Fork?
    ensures k < |InOrder(Plug(c, t))| && InOrder(Plug(c, t))[k] == t.node
    ensures At(InOrder(Plug(c, t)), k + 1) == if t.right.Fork? then First(t.right) else Above(c)
  {
    PlugInOrder(c, t);
    AboveLeads(c);
    if t.right.Fork? {
      FirstLeads(t.right);
    }
    k := |Before(c)| + |InOrder(t.left)|;
    var xs := InOrder(Plug(c, t));
    assert xs == Before(c) + InOrder(t.left) + [t.node] + (InOrder(t.right) + After(c));
  }

  /** A node has one position in the order. */
  lemma {:induction false} OnePosition<V>(t: Shape<V>, i: nat, j: nat)
    requires Distinct(t) && i < |InOrder(t)| && j < |InOrder(t)| && InOrder(t)[i] == InOrder(t)[j]
    ensures i == j
  {
    var l, r := InOrder(t.left), InOrder(t.right);
    NodesInOrder(t.left);
    NodesInOrder(t.right);
    if i < |l| && j < |l| {
      OnePosition(t.left, i, j);
    } else if i > |l| && j > |l| {
      OnePosition(t.right, i - |l| - 1, j - |l| - 1);
    } else {
      assert forall m :: 0 <= m < |InOrder(t)| ==>
        InOrder(t)[m] == if m < |l| then l[m] else if m == |l| then t.node else r[m - |l| - 1];
      assert forall m :: 0 <= m < |l| ==> l[m] in Nodes(t.left);
      assert forall m :: 0 <= m < |r| ==> r[m] in Nodes(t.right);
    }
  }

  // --------------------------------------------- where two links are enough

  /** How many nodes the chain of right links from a root has. */
  function RightSpine<V>(t: Shape<V>): nat {
    if t.Nil? then 0 else 1 + RightSpine(t.right)
  }

  /** No left child starts a chain of right links of more than two nodes. */
  predicate ShortSpines<V>(t: Shape<V>) {
    t.Fork? ==> RightSpine(t.left) <= 2 && ShortSpines(t.left) && ShortSpines(t.right)
  }

  lemma {:induction false} LongSpineShows<V>(c: Ctx<V>, t: Shape<V>)
    requires !ShortSpines(t) || (RightSpine(t) >= 3 && After(c) != [])
    ensures !ShortSpines(Plug(c, t))
    decreases c
  {
    if !c.Whole? {
      LongSpineShows(c.up, Refit(c, t));
    }
  }

  /** The last node of a long chain, seen from it. */
  lemma {:induction false} LongSpineEnds<V>(c: Ctx<V>, t: Shape<V>) returns (d: Ctx<V>, u: Shape<V>)
    requires RightSpine(t) >= 3 || (RightSpine(t) >= 2 && c.InRight?) || (RightSpine(t) >= 1 && DeepRight(c))
    ensures Plug(d, u) == Plug(c, t) && u.Fork? && u.right.Nil? && DeepRight(d) && After(d) == After(c)
    decreases t
  {
    if t.right.Nil? {
      d, u := c, t;
    } else {
      d, u := LongSpineEnds(InRight(c, t.left, t.node, t.height), t.right);
    }
  }

  lemma {:induction false} FindLongSpine<V>(c: Ctx<V>, t: Shape<V>) returns (d: Ctx<V>, u: Shape<V>)
    requires !ShortSpines(t)
    ensures Plug(d, u) == Plug(c, t) && u.Fork? && u.right.Nil? && DeepRight(d) && After(d) != []
    decreases t
  {
    if RightSpine(t.left) > 2 {
      d, u := LongSpineEnds(InLeft(c, t.node, t.height, t.right), t.left);
    } else if !ShortSpines(t.left) {
      d, u := FindLongSpine(InLeft(c, t.node, t.height, t.right), t.left);
    } else {
      d, u := FindLongSpine(InRight(c, t.left, t.node, t.height), t.right);
    }
  }
}
