/**
 The range map: the pointer code of insertion, lookup, erasure, iteration and
 destruction, each proved against its meaning on entries and on shapes.
 */
module RangeMaps {
  import opened Basics
  import opened Ranges
  import opened Shapes
  import opened Rotations
  import opened TreeSpec
  import opened Iteration
  import opened AsWrittenBalancing

  class RangeMap<V> {
    /** How it balances, and how it finds the next entry. */
    const balancing: Edition
    const walking: Edition
    var root: Node?<V>
    ghost var shape: Shape<V>

    ghost predicate Valid()
      reads this, Nodes(shape)
    {
      Holds(shape, root, null) && Distinct(shape) && Sane(shape) && Sorted(InOrder(shape))
    }

    /** The entries in key order. */
    ghost function Entries(): seq<Node<V>>
      reads this
    {
      InOrder(shape)
    }

    constructor (balancing: Edition, walking: Edition)
      ensures Valid() && this.balancing == balancing && this.walking == walking && shape == Nil
    {
      this.balancing, this.walking := balancing, walking;
      root, shape := null, Nil;
    }

    method Empty() returns (empty: bool)
      requires Valid()
      ensures empty <==> Entries() == []
    {
      empty := root == null;
    }

    /** The node found contains the key; when none is found, no entry does. */
    method Find(key: int) returns (found: Node?<V>)
      requires Valid()
      ensures found != null ==> found in Entries() && found.range.Contains(key)
      ensures found == null ==> forall x <- Entries() :: !x.range.Contains(key)
    {
      ghost var t := shape;
      found := root;
      assert forall x :: x in Entries() && x !in InOrder(t) ==> !x.range.Contains(key);
      while found != null
        invariant Rooted(t, found) && Sorted(InOrder(t))
        invariant forall x :: x in InOrder(t) ==> x in Entries()
        invariant forall x :: x in Entries() && x !in InOrder(t) ==> !x.range.Contains(key)
        decreases t
      {
        SortedParts(t);
        assert Rooted(t.left, found.left) && Rooted(t.right, found.right);
        assert found == t.node && found in InOrder(t);
        assert forall x :: x in InOrder(t) <==> x in InOrder(t.left) || x == found || x in InOrder(t.right);
        var order := found.range.CompareToKey(key);
        if order == 0 {
          return;
        } else if order < 0 {
          found, t := found.left, t.left;
        } else {
          found, t := found.right, t.right;
        }
      }
    }

    /**
     Adds an entry unless its range covers, or is covered by, one already
     there.  The tree left behind is the one the recursive form builds.
     */
    method Insert(range: Range, value: V) returns (ok: bool, ghost added: Node?<V>)
      requires Valid()
      modifies this, Nodes(shape)
      ensures Valid()
      ensures ok <==> Admits(old(Entries()), range)
      ensures !ok ==> shape == old(shape)
      ensures ok ==> added != null && fresh(added) && added.range == range && added.value == value
      ensures ok ==> shape == Inserted(balancing, old(shape), added)
      ensures ok ==> exists k :: PlacedAt(old(Entries()), added, k, Entries())
      ensures ok ==> Nodes(shape) == old(Nodes(shape)) + {added}
    {
      RefusedIffClash(shape, range);
      ok, added := InsertLeaf(range, value);
      if ok {
        ghost var k := InsertedIsPlaced(balancing, shape, added);
        shape := Inserted(balancing, shape, added);
        PlacedStaysSorted(old(Entries()), added, k, Entries());
      }
    }

    /** Makes the first node the root, or hangs a new leaf and rebalances from where it hangs. */
    method InsertLeaf(range: Range, value: V) returns (ok: bool, ghost added: Node?<V>)
      requires Valid()
      modifies this`root, Nodes(shape)
      ensures ok <==> !Refused(shape, range)
      ensures !ok ==> Valid()
      ensures ok ==> added != null && fresh(added) && added.range == range && added.value == value
      ensures ok ==> var u := Inserted(balancing, shape, added);
        Holds(u, root, null) && Distinct(u) && Nodes(u) == Nodes(shape) + {added}
    {
      ShapeAllocated(shape);
      added := null;
      if root == null {
        var n := new Node(range, value, LeafHeight(balancing));
        root := n;
        return true, n;
      }
      ghost var c, t;
      var into;
      into, added, c, t := InsertNode(range, value);
      ok := into != null;
      if ok {
        InsertedNodes(balancing, shape, added);
        root := RebalanceFrom(balancing, into, c, t);
      }
    }

    /** Hangs a new leaf where the search for its range ends; null when the range clashes. */
    method InsertNode(range: Range, value: V)
      returns (into: Node?<V>, ghost added: Node?<V>, ghost c: Ctx<V>, ghost t: Shape<V>)
      requires Valid() && root != null
      modifies Nodes(shape)
      ensures into == null <==> Refused(shape, range)
      ensures into == null ==> Valid()
      ensures into != null ==> added != null && fresh(added) && added.range == range && added.value == value
      ensures into != null ==> Holds(t, into, Parent(c)) && Around(c, into) && Apart(c, t)
      ensures into != null ==> SaneKids(t) && SaneCtx(c)
      ensures into != null ==> Nodes(t) + Rest(c) == Nodes(shape) + {added}
      ensures into != null ==> Rebalanced(balancing, c, t) == Inserted(balancing, shape, added)
    {
      added := null;
      into, c, t := root, Whole, shape;
      while true
        invariant Valid()
        invariant Plug(c, t) == shape && t.Fork? && Followed(c, range)
        invariant Holds(t, into, Parent(c)) && Around(c, into)
        decreases t
      {
        RefusedAlongPath(c, t, range);
        assert Holds(t.left, into.left, into) && Holds(t.right, into.right, into);
        var order := range.CompareTo(into.range);
        if order == 0 {
          into := null;
          return;
        } else if order > 0 {
          if into.right == null {
            PlugDistinct(c, t);
            PlugNodes(c, t);
            ShapeAllocated(shape);
            added := HangRight(into, range, value, c, t);
            ghost var u := Fork(t.left, into, t.height, Leaf(balancing, added));
            HungApart(balancing, c, t, added, u);
            HangingLeaf(balancing, c, t, added, u);
            t := u;
            return;
          }
          c, t, into := InRight(c, t.left, into, t.height), t.right, into.right;
        } else {
          if into.left == null {
            PlugDistinct(c, t);
            PlugNodes(c, t);
            ShapeAllocated(shape);
            added := HangLeft(into, range, value, c, t);
            ghost var u := Fork(Leaf(balancing, added), into, t.height, t.right);
            HungApart(balancing, c, t, added, u);
            HangingLeaf(balancing, c, t, added, u);
            t := u;
            return;
          }
          c, t, into := InLeft(c, into, t.height, t.right), t.left, into.left;
        }
      }
    }

    method HangRight(into: Node<V>, range: Range, value: V, ghost c: Ctx<V>, ghost t: Shape<V>)
      returns (ghost added: Node<V>)
      requires t.Fork? && t.right.Nil? && Apart(c, t)
      requires Holds(t, into, Parent(c)) && Around(c, into)
      modifies into`right
      ensures fresh(added) && added.range == range && added.value == value
      ensures Holds(Fork(t.left, into, t.height, Leaf(balancing, added)), into, Parent(c)) && Around(c, into)
    {
      ShapeAllocated(t);
      CtxAllocated(c);
      assert Holds(t.left, into.left, into) && Holds(t.right, into.right, into);
      var n := new Node(range, value, LeafHeight(balancing));
      into.SetRight(n, Leaf(balancing, n));
      assert Holds(t.left, into.left, into);
      added := n;
    }

    method HangLeft(into: Node<V>, range: Range, value: V, ghost c: Ctx<V>, ghost t: Shape<V>)
      returns (ghost added: Node<V>)
      requires t.Fork? && t.left.Nil? && Apart(c, t)
      requires Holds(t, into, Parent(c)) && Around(c, into)
      modifies into`left
      ensures fresh(added) && added.range == range && added.value == value
      ensures Holds(Fork(Leaf(balancing, added), into, t.height, t.right), into, Parent(c)) && Around(c, into)
    {
      ShapeAllocated(t);
      CtxAllocated(c);
      assert Holds(t.left, into.left, into) && Holds(t.right, into.right, into);
      var n := new Node(range, value, LeafHeight(balancing));
      into.SetLeft(n, Leaf(balancing, n));
      assert Holds(t.right, into.right, into);
      added := n;
    }

    /**
     Takes out one entry, given its node; the end position takes out nothing.
     The node is destroyed unless it was the only one, which is left alone.
     */
    method Erase(position: Node?<V>) returns (ghost destroyed: bool)
      requires Valid()
      requires position != null ==> position in Entries()
      modifies this, Nodes(shape)
      ensures Valid()
      ensures position == null ==> shape == old(shape)
      ensures position != null ==> exists k :: DroppedAt(old(Entries()), position, k, Entries())
      ensures position != null ==> Nodes(shape) == old(Nodes(shape)) - {position}
      ensures destroyed <==> position != null && |old(Entries())| > 1
      ensures position != null ==> (destroyed <==> !position.live)
    {
      destroyed := false;
      if position != null {
        NodesInOrder(shape);
        ghost var c, t := Located(Whole, shape, position);
        PlugDistinct(c, t);
        PlugNodes(c, t);
        PlugSane(c, t);
        PlugHolds(c, t);
        destroyed := EraseNode(position, c, t);
        ghost var k := ErasedDrops(balancing, c, t);
        ErasedNodes(balancing, c, t);
        shape := Erased(balancing, c, t);
        DropStaysSorted(old(Entries()), position, k, Entries());
      }
    }

    /** Hangs `child` under `top` in the place of `node`. */
    static method HangInstead(top: Node<V>, node: Node<V>, child: Node?<V>,
                              ghost c: Ctx<V>, ghost t: Shape<V>, ghost s: Shape<V>)
      requires !c.Whole? && top == c.node && Around(c, node) && Apart(c, t) && t.Fork? && t.node == node
      requires Rooted(s, child) && Distinct(s) && Nodes(s) <= Nodes(t)
      modifies top, Nodes(s)
      ensures Holds(Refit(c, s), top, Parent(c.up)) && Around(c.up, top)
    {
      CtxAllocated(c);
      ShapeAllocated(s);
      assert Holds(Sibling(c), if c.InLeft? then top.right else top.left, top);
      if node == top.left {
        top.SetLeft(child, s);
      } else {
        top.SetRight(child, s);
      }
    }

    /** Hangs the right child of `node` under the last node of its left child. */
    static method GraftInPlace(node: Node<V>, left: Node<V>, right: Node<V>, ghost t: Shape<V>)
      returns (last: Node<V>)
      requires Rooted(t, node) && Distinct(t) && t.Fork? && t.left.Fork? && t.right.Fork?
      requires left == node.left && right == node.right
      modifies Nodes(t.left), right`top
      ensures Rooted(Grafted(t.left, t.right), left)
      ensures last == Last(t.left).node
    {
      ShapeAllocated(t);
      assert Holds(t.left, left, node) && Rooted(t.left, left) && Holds(t.right, right, node);
      ghost var d, m := Whole, t.left;
      last := left;
      if left.right != null {
        assert Holds(m.left, left.left, left) && Holds(m.right, left.right, left);
        d, m, last := InRight(d, m.left, left, m.height), m.right, left.right;
      }
      while last.right != null
        invariant Plug(d, m) == t.left && m.Fork?
        invariant LastCtx(d, m) == LastCtx(Whole, t.left) && Last(m) == Last(t.left)
        invariant Holds(m, last, Parent(d, node)) && Around(d, last, node)
        invariant Holds(t.left, left, node) && Rooted(t.right, right)
        decreases m
      {
        assert Holds(m.left, last.left, last) && Holds(m.right, last.right, last);
        d, m, last := InRight(d, m.left, last, m.height), m.right, last.right;
      }
      assert Holds(m.left, last.left, last) && Holds(m.right, last.right, last);
      PlugDistinct(d, m);
      PlugNodes(d, m);
      CtxAllocated(d);
      last.SetRight(right, t.right);
      assert Holds(m.left, last.left, last);
      GraftedPlugs(Whole, t.left, t.right);
      PlugHolds(d, Fork(m.left, last, m.height, t.right), node);
    }

    /** A heap with the right subtree grafted in, seen from the node that took it. */
    static lemma SeenFromLast(c: Ctx<V>, l: Shape<V>, r: Shape<V>)
      requires !c.Whole? && l.Fork?
      requires Holds(Refit(c, Grafted(l, r)), c.node, Parent(c.up)) && Around(c.up, c.node)
      ensures var d, u := LastCtx(c, l), LastWith(l, r);
        Holds(u, u.node, Parent(d)) && Around(d, u.node) && Plug(d, u) == Plug(c, Grafted(l, r))
    {
      PlugHolds(c.up, Refit(c, Grafted(l, r)));
      GraftedPlugs(c, l, r);
      PlugHolds(LastCtx(c, l), LastWith(l, r));
    }

    /** Unlinks a node, destroys it and rebalances from where it hung; nothing is read of it any more. */
    method EraseNode(node: Node<V>, ghost c: Ctx<V>, ghost t: Shape<V>) returns (ghost destroyed: bool)
      requires Holds(t, node, Parent(c)) && Around(c, node) && Apart(c, t) && Sane(t) && SaneCtx(c) && t.Fork?
      modifies this`root, Nodes(t), Rest(c)
      ensures Holds(Erased(balancing, c, t), root, null)
      ensures destroyed <==> Erased(balancing, c, t) != Nil
      ensures destroyed <==> !node.live
    {
      ghost var d, u;
      var rebalance;
      rebalance, d, u := TakeOut(node, c, t);
      destroyed := rebalance != null;
      if rebalance != null {
        ShapeAllocated(u);
        CtxAllocated(d);
        DestroyNode(node);
        root := RebalanceFrom(balancing, rebalance, d, u);
      }
    }

    /** Unlinks a node and says where rebalancing starts, and what the tree looks like from there. */
    method TakeOut(node: Node<V>, ghost c: Ctx<V>, ghost t: Shape<V>)
      returns (rebalance: Node?<V>, ghost d: Ctx<V>, ghost u: Shape<V>)
      requires Holds(t, node, Parent(c)) && Around(c, node) && Apart(c, t) && Sane(t) && SaneCtx(c) && t.Fork?
      modifies this`root, Nodes(t), Rest(c)
      ensures node.live
      ensures rebalance == null ==> root == null && Erased(balancing, c, t) == Nil
      ensures rebalance != null ==> Holds(u, rebalance, Parent(d)) && Around(d, rebalance) && Apart(d, u)
      ensures rebalance != null ==> SaneKids(u) && SaneCtx(d) && Erased(balancing, c, t) == Rebalanced(balancing, d, u)
      ensures rebalance != null ==> Nodes(u) + Rest(d) == (Nodes(t) + Rest(c)) - {node}
    {
      ShapeAllocated(t);
      CtxAllocated(c);
      assert Holds(t.left, node.left, node) && Holds(t.right, node.right, node);
      ghost var s := Joined(t);
      JoinedApart(c, t);
      d, u := c, s;
      var top, left, right := node.top, node.left, node.right;
      rebalance := top;
      if left == null && right == null {
        if top != null {
          HangInstead(top, node, null, c, t, s);
          d, u := c.up, Refit(c, s);
        } else {
          root := null;
          return;
        }
      }
      if left != null && right == null {
        if top != null {
          HangInstead(top, node, left, c, t, s);
          d, u := c.up, Refit(c, s);
        } else {
          root := left;
          MakeRoot(root, s);
          rebalance := root;
        }
      }
      if right != null && left == null {
        if top != null {
          HangInstead(top, node, right, c, t, s);
          d, u := c.up, Refit(c, s);
        } else {
          root := right;
          MakeRoot(root, s);
          rebalance := root;
        }
      }
      if right != null && left != null {
        rebalance := GraftInPlace(node, left, right, t);
        if top != null {
          HangInstead(top, node, left, c, t, s);
          d, u := LastCtx(c, t.left), LastWith(t.left, t.right);
          SeenFromLast(c, t.left, t.right);
        } else {
          root := left;
          MakeRoot(root, s);
          rebalance := root;
        }
      }
      ApartElsewhere(c, s, d, u);
    }

    /** Gives a live node back to the system; nothing may be assumed of its fields afterwards. */
    static method DestroyNode(node: Node<V>)
      requires node.live
      modifies node
      ensures !node.live
    {
      node.top, node.left, node.right, node.height, node.live := *, *, *, *, false;
    }

    /** Cuts the leaf at the hole off its parent and destroys it. */
    static method CutLeaf(leaf: Node<V>, top: Node<V>, ghost c: Ctx<V>, ghost t: Shape<V>)
      requires !c.Whole? && top == c.node && Apart(c, t) && Around(c, leaf)
      requires t.Fork? && t.node == leaf && leaf.live
      modifies top, leaf
      ensures Holds(Refit(c, Nil), top, Parent(c.up)) && Around(c.up, top) && !leaf.live
    {
      CtxAllocated(c);
      assert Holds(Sibling(c), if c.InLeft? then top.right else top.left, top);
      if leaf == top.left {
        top.SetLeft(null, Nil);
      } else {
        top.SetRight(null, Nil);
      }
      DestroyNode(leaf);
    }

    /** `freed` lists, each once, the nodes of `all` that are not in `kept`, and they are live no more. */
    static ghost predicate Freed(freed: seq<Node<V>>, all: set<Node<V>>, kept: set<Node<V>>)
      reads freed
    {
      && (forall x <- freed :: !x.live)
      && (forall x <- freed :: x in all - kept)
      && (forall x <- all - kept :: x in freed)
      && (forall i, j :: 0 <= i < j < |freed| ==> freed[i] != freed[j])
    }

    static lemma FreedOne(freed: seq<Node<V>>, all: set<Node<V>>, kept: set<Node<V>>, x: Node<V>)
      requires Freed(freed, all, kept) && x in kept && kept <= all && !x.live
      ensures Freed(freed + [x], all, kept - {x})
    {
      assert x !in freed;
    }

    static lemma {:induction false} SameOutermost(c: Ctx<V>, t: Shape<V>, u: Shape<V>)
      requires !c.Whole?
      ensures OutermostNode(c, t) == OutermostNode(c, u)
      decreases c
    {
      if !c.up.Whole? {
        SameOutermost(c.up, Refit(c, t), Refit(c, u));
      }
    }

    static lemma CutKeeps(c: Ctx<V>, t: Shape<V>)
      requires !c.Whole? && Apart(c, t) && t.Fork? && t.left.Nil? && t.right.Nil?
      ensures Apart(c.up, Refit(c, Nil)) && Refit(c, Nil).Fork?
      ensures Nodes(Refit(c, Nil)) + Rest(c.up) == (Nodes(t) + Rest(c)) - {t.node}
      ensures Size(Plug(c.up, Refit(c, Nil))) < Size(Plug(c, t))
      ensures OutermostNode(c.up, Refit(c, Nil)) == OutermostNode(c, t)
    {
      SameOutermost(c, t, Nil);
      assert Nodes(t) == {t.node};
      PlugSize(c, t, Nil);
    }

    /** The cursor of the destruction: a node in its context, or nothing once only the root is left. */
    static ghost predicate Cursor(it: Node?<V>, c: Ctx<V>, t: Shape<V>, root: Node<V>)
      reads Nodes(t), Rest(c)
    {
      && t.Fork? && Apart(c, t) && OutermostNode(c, t) == root
      && Holds(t, t.node, Parent(c)) && Around(c, t.node)
      && (if it == null then c.Whole? && t.left.Nil? && t.right.Nil? else it == t.node)
    }

    static ghost function Remaining(it: Node?<V>, t: Shape<V>): nat {
      if it == null then 0 else 1 + Size(t)
    }

    /** One turn: step towards a leaf, or cut a leaf off, or stop at the childless root. */
    static method DestroyStep(from: Node<V>, ghost c: Ctx<V>, ghost t: Shape<V>, ghost root: Node<V>)
      returns (it: Node?<V>, ghost d: Ctx<V>, ghost u: Shape<V>, ghost cut: Node?<V>)
      requires Cursor(from, c, t, root)
      modifies Nodes(t), Rest(c)
      ensures Cursor(it, d, u, root)
      ensures cut == null ==> Nodes(u) + Rest(d) == Nodes(t) + Rest(c)
      ensures cut == null ==> Size(Plug(d, u)) == Size(Plug(c, t)) && Remaining(it, u) < Remaining(from, t)
      ensures cut != null ==> cut in Nodes(t) + Rest(c) && Nodes(u) + Rest(d) == (Nodes(t) + Rest(c)) - {cut}
      ensures cut != null ==> Size(Plug(d, u)) < Size(Plug(c, t)) && !cut.live
    {
      cut := null;
      it, d, u := FirstToGo(from, c, t);
      ApartElsewhere(c, t, d, u);
      assert Holds(u.left, it.left, it) && Holds(u.right, it.right, it);
      if it.right != null {
        d, u, it := InRight(d, u.left, it, u.height), u.right, it.right;
        return;
      }
      var tmp := it;
      if it.top == null {
        it := it.left;
        return;
      } else {
        it := it.top;
      }
      CutKeeps(d, u);
      CutLeaf(tmp, it, d, u);
      d, u, cut := d.up, Refit(d, Nil), tmp;
    }

    /**
     Destroys every node below `from`, which must be the root, each exactly
     once, and leaves `from` live and without children.
     */
    static method DestroyTree(from: Node<V>, ghost whole: Shape<V>) returns (ghost freed: seq<Node<V>>)
      requires Holds(whole, from, null) && Distinct(whole) && whole.Fork?
      modifies Nodes(whole)
      ensures from.live && from.left == null && from.right == null && from.top == null
      ensures Freed(freed, Nodes(whole), {from})
    {
      ghost var c, t := Whole, whole;
      var it: Node?<V> := from;
      freed := [];
      while it != null
        invariant Cursor(it, c, t, from)
        invariant Nodes(t) + Rest(c) <= Nodes(whole)
        invariant Freed(freed, Nodes(whole), Nodes(t) + Rest(c))
        decreases Size(Plug(c, t)), Remaining(it, t)
      {
        ghost var cut, kept := null, Nodes(t) + Rest(c);
        it, c, t, cut := DestroyStep(it, c, t, from);
        if cut != null {
          FreedOne(freed, Nodes(whole), kept, cut);
          freed := freed + [cut];
        }
      }
      assert OutermostNode(c, t) == t.node && Rooted(t, from);
      assert Holds(t.left, from.left, from) && Holds(t.right, from.right, from);
    }

    static ghost function OutermostNode(c: Ctx<V>, t: Shape<V>): Node?<V>
      decreases c
    {
      if c.Whole? then RootOf(t) else OutermostNode(c.up, Refit(c, t))
    }

    /** Down the right links, then down the left links. */
    static method FirstToGo(from: Node<V>, ghost c: Ctx<V>, ghost t: Shape<V>)
      returns (it: Node<V>, ghost d: Ctx<V>, ghost u: Shape<V>)
      requires t.Fork? && Holds(t, from, Parent(c)) && Around(c, from)
      ensures u.Fork? && Holds(u, it, Parent(d)) && Around(d, it)
      ensures Plug(d, u) == Plug(c, t) && Size(u) <= Size(t) && OutermostNode(d, u) == OutermostNode(c, t)
      ensures u.left.Nil?
    {
      it, d, u := from, c, t;
      while it.right != null
        invariant u.Fork? && Holds(u, it, Parent(d)) && Around(d, it)
        invariant Plug(d, u) == Plug(c, t) && Size(u) <= Size(t) && OutermostNode(d, u) == OutermostNode(c, t)
        decreases u
      {
        assert Holds(u.left, it.left, it) && Holds(u.right, it.right, it);
        d, u, it := InRight(d, u.left, it, u.height), u.right, it.right;
      }
      while it.left != null
        invariant u.Fork? && Holds(u, it, Parent(d)) && Around(d, it)
        invariant Plug(d, u) == Plug(c, t) && Size(u) <= Size(t) && OutermostNode(d, u) == OutermostNode(c, t)
        decreases u
      {
        assert Holds(u.left, it.left, it) && Holds(u.right, it.right, it);
        d, u, it := InLeft(d, it, u.height, u.right), u.left, it.left;
      }
      assert Holds(u.left, it.left, it);
    }

    /** Empties the map and destroys every node it had. */
    method Clear() returns (ghost freed: seq<Node<V>>)
      requires Valid()
      modifies this, Nodes(shape)
      ensures Valid() && shape == Nil
      ensures Freed(freed, old(Nodes(shape)), {})
    {
      freed := [];
      if root == null {
        return;
      }
      ShapeAllocated(shape);
      freed := DestroyTree(root, shape);
      DestroyNode(root);
      FreedOne(freed, Nodes(shape), {root}, root);
      freed := freed + [root];
      root := null;
      shape := Nil;
    }

    // ------------------------------------------------------------ iteration

    /** The first entry, or the end. */
    method Begin() returns (first: Node?<V>)
      requires Valid()
      ensures first == At(Entries(), 0)
    {
      first := root;
      if first != null {
        ghost var t := shape;
        FirstLeads(shape);
        while first.left != null
          invariant t.Fork? && Rooted(t, first) && First(t) == First(shape)
          decreases t
        {
          assert Rooted(t.left, first.left);
          first, t := first.left, t.left;
        }
        assert Rooted(t.left, first.left);
      }
    }

    /** The node is the right child of a right child and has no right child itself. */
    static ghost predicate EndsLongSpine(n: Node<V>)
      reads n, n.top, if n.top == null then null else n.top.top
    {
      n.right == null && n.top != null && n.top.right == n && n.top.top != null && n.top.top.right == n.top
    }

    /**
     The entry after `from`.  As written, the answer at the end of a long
     chain of right links is the end of the map instead.
     */
    method Next(from: Node<V>, ghost k: nat) returns (result: Node?<V>)
      requires Valid() && k < |Entries()| && Entries()[k] == from
      ensures result ==
        if walking == AsWritten && EndsLongSpine(from) then null else At(Entries(), k + 1)
    {
      NodesInOrder(shape);
      ghost var c, t := Located(Whole, shape, from);
      ghost var k' := SuccessorOf(c, t);
      PlugHolds(c, t);
      PlugDistinct(c, t);
      OnePosition(shape, k, k');
      assert Rooted(t, from) && Holds(t.left, from.left, from) && Holds(t.right, from.right, from);
      assert Rooted(t.right, from.right);
      if from.right != null {
        result := from.right;
        ghost var r := t.right;
        while result.left != null
          invariant r.Fork? && Rooted(r, result) && First(r) == First(t.right)
          decreases r
        {
          assert Rooted(r.left, result.left);
          result, r := result.left, r.left;
        }
        assert Rooted(r.left, result.left);
      } else if walking == AsWritten {
        result := ClimbAsWritten(from, c, t);
      } else {
        result := Climb(from, c, t);
      }
    }

    static method ClimbAsWritten(from: Node<V>, ghost c: Ctx<V>, ghost t: Shape<V>) returns (result: Node?<V>)
      requires t.Fork? && Holds(t, from, Parent(c)) && Around(c, from) && Apart(c, t) && t.right.Nil?
      ensures EndsLongSpine(from) <==> DeepRight(c)
      ensures result == if EndsLongSpine(from) then null else Above(c)
    {
      DeepRightShows(c, t, from);
      assert !c.Whole? ==> Holds(Sibling(c), if c.InLeft? then c.node.right else c.node.left, c.node);
      result := from.top;
      if result != null {
        if result.right == from {
          if result.top == null {
            result := null;
          } else if result == result.top.left {
            result := result.top;
          } else {
            result := null;
          }
        }
      }
    }

    static method Climb(from: Node<V>, ghost c: Ctx<V>, ghost t: Shape<V>) returns (result: Node?<V>)
      requires t.Fork? && Holds(t, from, Parent(c)) && Around(c, from) && Apart(c, t)
      ensures result == Above(c)
    {
      var child := from;
      ghost var d, u := c, t;
      result := from.top;
      while result != null && result.right == child
        invariant u.Fork? && Holds(u, child, Parent(d)) && Around(d, child) && Apart(d, u)
        invariant result == Parent(d) && Above(d) == Above(c)
        decreases d
      {
        d, u := d.up, Refit(d, u);
        child := result;
        result := result.top;
      }
    }

    /**
     From the first entry to the end, as the loops over the map do.  What is
     visited is a prefix of the entries; as written it ends at the first node
     whose successor lies too far up, and it is all of them exactly when no
     left child starts a chain of right links of more than two nodes.
     */
    method Iterate() returns (visited: seq<Node<V>>)
      requires Valid()
      ensures visited <= Entries()
      ensures visited == Entries() <==> walking == Repaired || ShortSpines(shape)
      ensures visited != Entries() ==> visited != [] && EndsLongSpine(visited[|visited| - 1])
      ensures walking == AsWritten ==> forall j :: 0 <= j < |visited| - 1 ==> !EndsLongSpine(visited[j])
    {
      ShapeAllocated(shape);
      visited := [];
      var it := Begin();
      while it != null
        invariant Valid()
        invariant |visited| <= |Entries()| && visited == Entries()[..|visited|]
        invariant it != null ==> it == At(Entries(), |visited|)
        invariant it == null && |visited| < |Entries()| ==> visited != [] && EndsLongSpine(visited[|visited| - 1])
        invariant walking == AsWritten ==>
          forall j :: 0 <= j < |visited| && (it != null || j + 1 < |visited|) ==> !EndsLongSpine(visited[j])
        invariant it == null && walking == Repaired ==> |visited| == |Entries()|
        decreases |Entries()| - |visited|, it != null
      {
        ghost var k := |visited|;
        visited := visited + [it];
        it := Next(it, k);
        ShapeAllocated(shape);
      }
      VisitEnds(visited);
    }

    /** A visit that ends before the last entry ends at a long chain, and then not all chains are short. */
    lemma VisitEnds(visited: seq<Node<V>>)
      requires Valid() && |visited| <= |Entries()| && visited == Entries()[..|visited|]
      requires |visited| < |Entries()| ==> visited != [] && EndsLongSpine(visited[|visited| - 1])
      requires walking == Repaired ==> |visited| == |Entries()|
      requires walking == AsWritten ==> forall j :: 0 <= j < |visited| - 1 ==> !EndsLongSpine(visited[j])
      ensures visited == Entries() <==> walking == Repaired || ShortSpines(shape)
    {
      SpinesDecide();
    }

    /** Which trees have a node whose successor lies too far up. */
    lemma SpinesDecide()
      requires Valid()
      ensures ShortSpines(shape) <==>
        forall j :: 0 <= j < |Entries()| - 1 ==> !EndsLongSpine(Entries()[j])
    {
      if !ShortSpines(shape) {
        var c, t := FindLongSpine(Whole, shape);
        var k := SpineEndAt(c, t);
        assert EndsLongSpine(Entries()[k]);
      } else {
        forall j | 0 <= j < |Entries()| - 1 ensures !EndsLongSpine(Entries()[j]) {
          NodesInOrder(shape);
          var c, t := Located(Whole, shape, Entries()[j]);
          var k := SpineEndAt(c, t);
          OnePosition(shape, j, k);
          if EndsLongSpine(t.node) {
            assert RightSpine(Refit(c, t)) == 1 + RightSpine(t);
            LongSpineShows(c.up.up, Refit(c.up, Refit(c, t)));
          }
        }
      }
    }

    /**
     As written throughout, six insertions make a map over which `Iterate`
     visits `a`, `b` and `c` and misses the three entries after them.
     */
    lemma SixMissThree(a: Node<V>, b: Node<V>, c: Node<V>, d: Node<V>, e: Node<V>, f: Node<V>)
      requires Valid() && shape == SixInserted(a, b, c, d, e, f)
      requires a.range.Precedes(b.range) && b.range.Precedes(c.range) && c.range.Precedes(d.range)
      requires d.range.Precedes(e.range) && e.range.Precedes(f.range)
      ensures Entries() == [a, b, c, d, e, f] && !ShortSpines(shape)
      ensures !EndsLongSpine(a) && !EndsLongSpine(b) && EndsLongSpine(c)
    {
      SixInsertedIs(a, b, c, d, e, f);
      var atA := InLeft(Whole, d, 3, ChainOfTwo(e, f));
      var atB := InRight(atA, Nil, a, 2);
      var i := SpineEndAt(atA, ChainOfThree(a, b, c));
      var j := SpineEndAt(atB, ChainOfTwo(b, c));
      var k := SpineEndAt(InRight(atB, Nil, b, 1), Leaf(AsWritten, c));
    }

    lemma SpineEndAt(c: Ctx<V>, t: Shape<V>) returns (k: nat)
      requires Valid() && Plug(c, t) == shape && t.Fork?
      ensures k < |Entries()| && Entries()[k] == t.node
      ensures EndsLongSpine(t.node) <==> t.right.Nil? && DeepRight(c)
      ensures t.right.Nil? ==> (k + 1 < |Entries()| <==> After(c) != [])
    {
      k := SuccessorOf(c, t);
      AboveLeads(c);
      PlugHolds(c, t);
      PlugDistinct(c, t);
      DeepRightShows(c, t, t.node);
    }

    static lemma DeepRightShows(c: Ctx<V>, t: Shape<V>, n: Node<V>)
      requires t.Fork? && Holds(t, n, Parent(c)) && Around(c, n) && Apart(c, t)
      ensures EndsLongSpine(n) <==> t.right.Nil? && DeepRight(c)
    {
      assert Rooted(t, n) && Holds(t.right, n.right, n);
      assert !c.Whole? ==> Holds(Sibling(c), if c.InLeft? then c.node.right else c.node.left, c.node);
      if !c.Whole? && !c.up.Whole? {
        assert Holds(Sibling(c.up), if c.up.InLeft? then c.up.node.right else c.up.node.left, c.up.node);
      }
    }
  }
}
