/**
 Rotations, `balance` and the walk that rebalances from a node up to the root:
 first as functions on shapes, then as the pointer code proved against them.
 */
module Rotations {
  import opened Basics
  import opened Shapes

  /** A sane subtree leans only towards a child that exists. */
  function Factor<V>(t: Shape<V>): (f: int)
    ensures Sane(t) && f > 0 ==> t.Fork? && t.left.Fork?
    ensures Sane(t) && f < 0 ==> t.Fork? && t.right.Fork?
  {
    if t.Nil? then 0 else Stored(t.left) - Stored(t.right)
  }

  /** Lifts the left child. */
  function RotLeft<V>(t: Shape<V>): (r: Shape<V>)
    requires t.Fork? && t.left.Fork?
    ensures SaneKids(t) ==> Sane(r)
  {
    Fixed(t.left.left, t.left.node, Fixed(t.left.right, t.node, t.right))
  }

  /** Lifts the right child. */
  function RotRight<V>(t: Shape<V>): (r: Shape<V>)
    requires t.Fork? && t.right.Fork?
    ensures SaneKids(t) ==> Sane(r)
  {
    Fixed(Fixed(t.left, t.node, t.right.left), t.right.node, t.right.right)
  }

  ghost predicate SaneKids<V>(t: Shape<V>) {
    t.Fork? && Sane(t.left) && Sane(t.right)
  }

  /**
   The inner half of a double rotation, for a left-heavy and for a right-heavy
   node.  As written, the child tested and rotated is the one that is not
   lifted afterwards.
   */
  function LeanLeft<V>(ed: Edition, p: Shape<V>): (q: Shape<V>)
    requires SaneKids(p) && p.left.Fork?
    ensures SaneKids(q) && q.left.Fork?
  {
    match ed
    case AsWritten =>
      if Factor(p.right) < 0 then Fork(p.left, p.node, p.height, RotRight(p.right)) else p
    case Repaired =>
      if Factor(p.left) < 0 then Fork(RotRight(p.left), p.node, p.height, p.right) else p
  }

  function LeanRight<V>(ed: Edition, p: Shape<V>): (q: Shape<V>)
    requires SaneKids(p) && p.right.Fork?
    ensures SaneKids(q) && q.right.Fork?
  {
    match ed
    case AsWritten =>
      if Factor(p.left) > 0 then Fork(RotLeft(p.left), p.node, p.height, p.right) else p
    case Repaired =>
      if Factor(p.right) > 0 then Fork(p.left, p.node, p.height, RotLeft(p.right)) else p
  }

  function Balance<V>(ed: Edition, t: Shape<V>): (b: Shape<V>)
    requires SaneKids(t)
    ensures b.Fork? && Sane(b)
  {
    var p := Fixed(t.left, t.node, t.right);
    if Factor(p) == 2 then RotLeft(LeanLeft(ed, p))
    else if Factor(p) == -2 then RotRight(LeanRight(ed, p))
    else p
  }

  /** The whole tree once the hole is filled with `s` and every subtree around it is balanced in turn. */
  function Lifted<V>(ed: Edition, c: Ctx<V>, s: Shape<V>): (b: Shape<V>)
    requires Sane(s) && SaneCtx(c)
    ensures Sane(b) && (s.Fork? ==> b.Fork?)
    decreases c
  {
    if c.Whole? then s else Lifted(ed, c.up, Balance(ed, Refit(c, s)))
  }

  /** The same, when the subtree in the hole still has to be balanced itself. */
  function Rebalanced<V>(ed: Edition, c: Ctx<V>, t: Shape<V>): (b: Shape<V>)
    requires SaneKids(t) && SaneCtx(c)
    ensures b.Fork? && Sane(b)
  {
    Lifted(ed, c, Balance(ed, t))
  }

  // ----------------------------------------------------- what they preserve

  /** Same nodes, each once, in the same order. */
  ghost predicate Rearranged<V>(t: Shape<V>, u: Shape<V>) {
    && InOrder(u) == InOrder(t)
    && Nodes(u) == Nodes(t)
    && (Distinct(t) ==> Distinct(u))
  }

  lemma RotLeftRearranges<V>(t: Shape<V>)
    requires t.Fork? && t.left.Fork?
    ensures Rearranged(t, RotLeft(t))
  {
    var a, x, b, y, c := InOrder(t.left.left), [t.left.node], InOrder(t.left.right), [t.node], InOrder(t.right);
    assert (a + x + b) + y + c == a + x + (b + y + c);
    if Distinct(t) {
      assert Distinct(t.left) && t.left.node in Nodes(t.left);
      assert Distinct(Fixed(t.left.right, t.node, t.right));
    }
  }

  lemma RotRightRearranges<V>(t: Shape<V>)
    requires t.Fork? && t.right.Fork?
    ensures Rearranged(t, RotRight(t))
  {
    var a, x, b, y, c := InOrder(t.left), [t.node], InOrder(t.right.left), [t.right.node], InOrder(t.right.right);
    assert a + x + (b + y + c) == (a + x + b) + y + c;
    if Distinct(t) {
      assert Distinct(t.right) && t.right.node in Nodes(t.right);
      assert Distinct(Fixed(t.left, t.node, t.right.left));
    }
  }

  lemma LeanLeftRearranges<V>(ed: Edition, p: Shape<V>)
    requires SaneKids(p) && p.left.Fork?
    ensures Rearranged(p, LeanLeft(ed, p))
  {
    match ed
    case AsWritten => if Factor(p.right) < 0 { RotRightRearranges(p.right); }
    case Repaired => if Factor(p.left) < 0 { RotRightRearranges(p.left); }
  }

  lemma LeanRightRearranges<V>(ed: Edition, p: Shape<V>)
    requires SaneKids(p) && p.right.Fork?
    ensures Rearranged(p, LeanRight(ed, p))
  {
    match ed
    case AsWritten => if Factor(p.left) > 0 { RotLeftRearranges(p.left); }
    case Repaired => if Factor(p.right) > 0 { RotLeftRearranges(p.right); }
  }

  lemma BalanceRearranges<V>(ed: Edition, t: Shape<V>)
    requires SaneKids(t)
    ensures Rearranged(t, Balance(ed, t))
  {
    var p := Fixed(t.left, t.node, t.right);
    if Factor(p) == 2 {
      LeanLeftRearranges(ed, p);
      RotLeftRearranges(LeanLeft(ed, p));
    } else if Factor(p) == -2 {
      LeanRightRearranges(ed, p);
      RotRightRearranges(LeanRight(ed, p));
    }
  }

  /** The walk to the root keeps every node, once, in order. */
  lemma {:induction false} LiftedRearranges<V>(ed: Edition, c: Ctx<V>, s: Shape<V>)
    requires Sane(s) && SaneCtx(c)
    ensures Rearranged(Plug(c, s), Lifted(ed, c, s))
    decreases c
  {
    if !c.Whole? {
      BalanceRearranges(ed, Refit(c, s));
      PlugRearranges(c.up, Refit(c, s), Balance(ed, Refit(c, s)));
      LiftedRearranges(ed, c.up, Balance(ed, Refit(c, s)));
    }
  }

  lemma PlugRearranges<V>(c: Ctx<V>, t: Shape<V>, u: Shape<V>)
    requires Rearranged(t, u)
    ensures Rearranged(Plug(c, t), Plug(c, u))
  {
    PlugInOrder(c, t);
    PlugInOrder(c, u);
    PlugNodes(c, t);
    PlugNodes(c, u);
    PlugDistinct(c, t);
    PlugDistinct(c, u);
  }

  lemma RebalancedRearranges<V>(ed: Edition, c: Ctx<V>, t: Shape<V>)
    requires SaneKids(t) && SaneCtx(c)
    ensures Rearranged(Plug(c, t), Rebalanced(ed, c, t))
  {
    BalanceRearranges(ed, t);
    PlugRearranges(c, t, Balance(ed, t));
    LiftedRearranges(ed, c, Balance(ed, t));
  }

  // ----------------------------------------------------------- pointer code

  method RotateLeft<V>(node: Node<V>, ghost t: Shape<V>) returns (result: Node<V>)
    requires Rooted(t, node) && Distinct(t) && t.Fork? && t.left.Fork?
    modifies Nodes(t)
    ensures Rooted(RotLeft(t), result)
  {
    ShapeAllocated(t);
    ghost var l := t.left;
    assert Holds(l, node.left, node) && Rooted(l, node.left) && Distinct(l);
    assert Nodes(l) == Nodes(l.left) + {l.node} + Nodes(l.right);
    assert Nodes(t) == Nodes(l) + {node} + Nodes(t.right);
    result := node.left;
    assert Holds(l.left, result.left, result) && Holds(l.right, result.right, result);
    node.SetLeft(result.right, l.right);
    result.SetRight(node, Fork(l.right, node, t.height, t.right));
    node.FixHeight(l.right, t.right);
    result.FixHeight(l.left, Fixed(l.right, node, t.right));
  }

  method RotateRight<V>(node: Node<V>, ghost t: Shape<V>) returns (result: Node<V>)
    requires Rooted(t, node) && Distinct(t) && t.Fork? && t.right.Fork?
    modifies Nodes(t)
    ensures Rooted(RotRight(t), result)
  {
    ShapeAllocated(t);
    ghost var r := t.right;
    assert Holds(r, node.right, node) && Rooted(r, node.right) && Distinct(r);
    assert Nodes(r) == Nodes(r.left) + {r.node} + Nodes(r.right);
    assert Nodes(t) == Nodes(t.left) + {node} + Nodes(r);
    result := node.right;
    assert Holds(r.left, result.left, result) && Holds(r.right, result.right, result);
    node.SetRight(result.left, r.left);
    result.SetLeft(node, Fork(t.left, node, t.height, r.left));
    node.FixHeight(t.left, r.left);
    result.FixHeight(Fixed(t.left, node, r.left), r.right);
  }

  lemma FactorAgrees<V>(t: Shape<V>, n: Node?<V>)
    requires Rooted(t, n)
    ensures FactorOf(n) == Factor(t)
  {
    if t.Fork? {
      assert Rooted(t.left, n.left) && Rooted(t.right, n.right);
    }
  }

  method LeanLeftInPlace<V>(ed: Edition, p: Node<V>, ghost t: Shape<V>)
    requires Rooted(t, p) && Distinct(t) && SaneKids(t) && t.left.Fork?
    modifies Nodes(t)
    ensures Rooted(LeanLeft(ed, t), p)
  {
    ShapeAllocated(t);
    assert Holds(t.left, p.left, p) && Holds(t.right, p.right, p);
    if ed == AsWritten {
      FactorAgrees(t.right, p.right);
      if FactorOf(p.right) < 0 {
        RotRightRearranges(t.right);
        var r := RotateRight(p.right, t.right);
        p.SetRight(r, RotRight(t.right));
      }
    } else {
      FactorAgrees(t.left, p.left);
      if FactorOf(p.left) < 0 {
        RotRightRearranges(t.left);
        var l := RotateRight(p.left, t.left);
        p.SetLeft(l, RotRight(t.left));
      }
    }
  }

  method LeanRightInPlace<V>(ed: Edition, p: Node<V>, ghost t: Shape<V>)
    requires Rooted(t, p) && Distinct(t) && SaneKids(t) && t.right.Fork?
    modifies Nodes(t)
    ensures Rooted(LeanRight(ed, t), p)
  {
    ShapeAllocated(t);
    assert Holds(t.left, p.left, p) && Holds(t.right, p.right, p);
    if ed == AsWritten {
      FactorAgrees(t.left, p.left);
      if FactorOf(p.left) > 0 {
        RotLeftRearranges(t.left);
        var l := RotateLeft(p.left, t.left);
        p.SetLeft(l, RotLeft(t.left));
      }
    } else {
      FactorAgrees(t.right, p.right);
      if FactorOf(p.right) > 0 {
        RotLeftRearranges(t.right);
        var r := RotateLeft(p.right, t.right);
        p.SetRight(r, RotLeft(t.right));
      }
    }
  }

  method BalanceInPlace<V>(ed: Edition, p: Node<V>, ghost t: Shape<V>) returns (result: Node<V>)
    requires Rooted(t, p) && Distinct(t) && SaneKids(t)
    modifies Nodes(t)
    ensures Rooted(Balance(ed, t), result)
  {
    ShapeAllocated(t);
    p.FixHeight(t.left, t.right);
    ghost var f := Fixed(t.left, p, t.right);
    FactorAgrees(f, p);
    var factor := FactorOf(p);
    if factor == 2 {
      LeanLeftRearranges(ed, f);
      LeanLeftInPlace(ed, p, f);
      result := RotateLeft(p, LeanLeft(ed, f));
    } else if factor == -2 {
      LeanRightRearranges(ed, f);
      LeanRightInPlace(ed, p, f);
      result := RotateRight(p, LeanRight(ed, f));
    } else {
      result := p;
    }
  }

  lemma RefitApart<V>(c: Ctx<V>, t: Shape<V>)
    requires !c.Whole? && Apart(c, t)
    ensures Apart(c.up, Refit(c, t))
    ensures Nodes(Refit(c, t)) + Rest(c.up) == Nodes(t) + Rest(c)
  {
  }

  method MakeRoot<V>(node: Node<V>, ghost t: Shape<V>)
    requires Rooted(t, node) && Distinct(t)
    modifies node`top
    ensures Holds(t, node, null)
  {
    ShapeAllocated(t);
    assert Holds(t.left, node.left, node) && Holds(t.right, node.right, node);
    node.top := null;
    assert Holds(t.left, node.left, node) && Holds(t.right, node.right, node);
  }

  /** One turn of the walk: balance the subtree at `it` and hang the result under `top`. */
  method RebalanceUnder<V>(ed: Edition, it: Node<V>, top: Node<V>, ghost c: Ctx<V>, ghost t: Shape<V>)
    requires !c.Whole? && top == c.node
    requires Holds(t, it, top) && Around(c, it) && Apart(c, t) && SaneKids(t)
    modifies Nodes(t), top
    ensures Holds(Refit(c, Balance(ed, t)), top, Parent(c.up)) && Around(c.up, top)
  {
    ShapeAllocated(t);
    CtxAllocated(c);
    BalanceRearranges(ed, t);
    ghost var b := Balance(ed, t);
    assert Holds(Sibling(c), if c.InLeft? then top.right else top.left, top);
    if it == top.left {
      var q := BalanceInPlace(ed, it, t);
      top.SetLeft(q, b);
    } else {
      var q := BalanceInPlace(ed, it, t);
      top.SetRight(q, b);
    }
  }

  /**
   Walks from `from` to the root, rebalancing every subtree on the way and
   hanging what comes back where the subtree hung.
   */
  method RebalanceFrom<V>(ed: Edition, from: Node<V>, ghost c: Ctx<V>, ghost t: Shape<V>)
    returns (root: Node<V>)
    requires Holds(t, from, Parent(c)) && Around(c, from) && Apart(c, t)
    requires SaneKids(t) && SaneCtx(c)
    modifies Nodes(t), Rest(c)
    ensures Holds(Rebalanced(ed, c, t), root, null)
  {
    ghost var d, u := c, t;
    var it := from;
    var top := it.top;
    while top != null
      invariant Nodes(u) + Rest(d) == Nodes(t) + Rest(c)
      invariant Holds(u, it, Parent(d)) && Around(d, it) && Apart(d, u)
      invariant SaneKids(u) && SaneCtx(d)
      invariant top == it.top
      invariant Rebalanced(ed, d, u) == Rebalanced(ed, c, t)
      decreases d
    {
      BalanceRearranges(ed, u);
      RefitApart(d, Balance(ed, u));
      RebalanceUnder(ed, it, top, d, u);
      d, u, it := d.up, Refit(d, Balance(ed, u)), top;
      top := it.top;
    }
    BalanceRearranges(ed, u);
    root := BalanceInPlace(ed, it, u);
    MakeRoot(root, Balance(ed, u));
  }
}
