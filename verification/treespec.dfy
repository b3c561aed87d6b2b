/**
 What inserting into and erasing from the range tree mean: on the order of the
 entries, and on the shape the two operations leave behind.
 */
module TreeSpec {
  import opened Basics
  import opened Ranges
  import opened Shapes
  import opened Rotations

  /** Every entry strictly precedes, in both bounds, those after it. */
  ghost predicate Sorted<V>(xs: seq<Node<V>>) {
    forall i, j :: 0 <= i < j < |xs| ==> xs[i].range.Precedes(xs[j].range)
  }

  /** Neither range covers the other, so one of them precedes. */
  predicate Comparable(a: Range, b: Range) {
    !a.Covers(b) && !b.Covers(a)
  }

  /** The range clashes with none of the entries. */
  ghost predicate Admits<V>(xs: seq<Node<V>>, range: Range) {
    forall x <- xs :: Comparable(range, x.range)
  }

  lemma SortedParts<V>(t: Shape<V>)
    requires t.Fork? && Sorted(InOrder(t))
    ensures Sorted(InOrder(t.left)) && Sorted(InOrder(t.right))
    ensures forall x <- InOrder(t.left) :: x.range.Precedes(t.node.range)
    ensures forall x <- InOrder(t.right) :: t.node.range.Precedes(x.range)
  {
    var l, r, xs := InOrder(t.left), InOrder(t.right), InOrder(t);
    assert forall i :: 0 <= i < |l| ==> xs[i] == l[i];
    assert xs[|l|] == t.node;
    assert forall i :: 0 <= i < |r| ==> xs[|l| + 1 + i] == r[i];
  }

  // -------------------------------------------------------------- insertion

  /** A new leaf; as written it stores the height of an absent node. */
  function Leaf<V>(ed: Edition, n: Node<V>): Shape<V> {
    Fork(Nil, n, LeafHeight(ed), Nil)
  }

  function LeafHeight(ed: Edition): int {
    if ed == AsWritten then 0 else 1
  }

  /** The textbook form of insertion: recurse, then balance on the way back. */
  function Inserted<V>(ed: Edition, t: Shape<V>, n: Node<V>): (u: Shape<V>)
    requires Sane(t)
    ensures u.Fork? && Sane(u)
  {
    if t.Nil? then Leaf(ed, n)
    else if n.range.CompareTo(t.node.range) > 0 then
      Balance(ed, Fork(t.left, t.node, t.height, Inserted(ed, t.right, n)))
    else
      Balance(ed, Fork(Inserted(ed, t.left, n), t.node, t.height, t.right))
  }

  /** The search for a place meets an entry that the range clashes with. */
  predicate Refused<V>(t: Shape<V>, range: Range) {
    t.Fork? &&
    var order := range.CompareTo(t.node.range);
    order == 0 || Refused(if order > 0 then t.right else t.left, range)
  }

  /** Searching one path is enough to find a clash anywhere. */
  lemma {:induction false} RefusedIffClash<V>(t: Shape<V>, range: Range)
    requires Sorted(InOrder(t))
    ensures Refused(t, range) <==> !Admits(InOrder(t), range)
  {
    if t.Fork? {
      SortedParts(t);
      RefusedIffClash(t.left, range);
      RefusedIffClash(t.right, range);
      var l, r := InOrder(t.left), InOrder(t.right);
      assert forall x :: x in InOrder(t) <==> x in l || x == t.node || x in r;
      if range.CompareTo(t.node.range) > 0 {
        assert Admits(l, range);
      } else if range.CompareTo(t.node.range) < 0 {
        assert Admits(r, range);
      }
    }
  }

  /** The context is the path a search for `range` takes. */
  predicate Followed<V>(c: Ctx<V>, range: Range) {
    match c
    case Whole => true
    case InLeft(up, x, _, _) => range.CompareTo(x.range) < 0 && Followed(up, range)
    case InRight(up, _, x, _) => range.CompareTo(x.range) > 0 && Followed(up, range)
  }

  lemma {:induction false} InsertedAlongPath<V>(ed: Edition, c: Ctx<V>, t: Shape<V>, n: Node<V>)
    requires Sane(t) && SaneCtx(c) && Sane(Plug(c, t)) && Followed(c, n.range)
    ensures Inserted(ed, Plug(c, t), n) == Lifted(ed, c, Inserted(ed, t, n))
    decreases c
  {
    if !c.Whole? {
      PlugSane(c.up, Refit(c, t));
      InsertedAlongPath(ed, c.up, Refit(c, t), n);
    }
  }

  /** A leaf is hung at the free side of the last node of a search. */
  ghost predicate Hung<V>(ed: Edition, t: Shape<V>, n: Node<V>, u: Shape<V>) {
    t.Fork? &&
    if n.range.CompareTo(t.node.range) > 0
    then t.right.Nil? && u == Fork(t.left, t.node, t.height, Leaf(ed, n))
    else t.left.Nil? && u == Fork(Leaf(ed, n), t.node, t.height, t.right)
  }

  lemma HungApart<V>(ed: Edition, c: Ctx<V>, t: Shape<V>, n: Node<V>, u: Shape<V>)
    requires Distinct(Plug(c, t)) && n !in Nodes(Plug(c, t)) && Hung(ed, t, n, u)
    ensures Apart(c, u) && Nodes(u) + Rest(c) == Nodes(Plug(c, t)) + {n}
  {
    PlugDistinct(c, t);
    PlugNodes(c, t);
    assert Nodes(u) == Nodes(t) + {n};
  }

  /** Hanging a leaf at the end of the path, then rebalancing from its parent, is insertion. */
  lemma HangingLeaf<V>(ed: Edition, c: Ctx<V>, t: Shape<V>, n: Node<V>, u: Shape<V>)
    requires Sane(Plug(c, t)) && Followed(c, n.range) && Hung(ed, t, n, u)
    ensures SaneKids(u) && SaneCtx(c)
    ensures Rebalanced(ed, c, u) == Inserted(ed, Plug(c, t), n)
  {
    PlugSane(c, t);
    assert Inserted(ed, t, n) == Balance(ed, u);
    InsertedAlongPath(ed, c, t, n);
  }

  lemma {:induction false} PlugSane<V>(c: Ctx<V>, t: Shape<V>)
    ensures Sane(Plug(c, t)) ==> Sane(t) && SaneCtx(c)
    decreases c
  {
    if !c.Whole? {
      PlugSane(c.up, Refit(c, t));
    }
  }

  lemma {:induction false} RefusedAlongPath<V>(c: Ctx<V>, t: Shape<V>, range: Range)
    requires Followed(c, range)
    ensures Refused(Plug(c, t), range) <==> Refused(t, range)
    decreases c
  {
    if !c.Whole? {
      RefusedAlongPath(c.up, Refit(c, t), range);
    }
  }

  /** `ys` is `xs` with `n` put in at position `k`, the one place that keeps it sorted. */
  ghost predicate PlacedAt<V>(xs: seq<Node<V>>, n: Node<V>, k: nat, ys: seq<Node<V>>) {
    && k <= |xs| && ys == xs[..k] + [n] + xs[k..]
    && (forall i :: 0 <= i < k ==> xs[i].range.Precedes(n.range))
    && (forall i :: k <= i < |xs| ==> n.range.Precedes(xs[i].range))
  }

  lemma PlacedStaysSorted<V>(xs: seq<Node<V>>, n: Node<V>, k: nat, ys: seq<Node<V>>)
    requires Sorted(xs) && PlacedAt(xs, n, k, ys)
    ensures Sorted(ys)
  {
  }

  lemma AdmitsParts<V>(l: seq<Node<V>>, x: Node<V>, r: seq<Node<V>>, range: Range)
    ensures Admits(l + [x] + r, range) <==> Admits(l, range) && Comparable(range, x.range) && Admits(r, range)
  {
    assert forall y :: y in l + [x] + r <==> y in l || y == x || y in r;
  }

  lemma BalanceInOrder<V>(ed: Edition, t: Shape<V>)
    requires SaneKids(t)
    ensures InOrder(Balance(ed, t)) == InOrder(t.left) + [t.node] + InOrder(t.right)
  {
    BalanceRearranges(ed, t);
  }

  lemma {:induction false} InsertedIsPlaced<V>(ed: Edition, t: Shape<V>, n: Node<V>) returns (k: nat)
    requires Sane(t) && Sorted(InOrder(t)) && Admits(InOrder(t), n.range)
    ensures PlacedAt(InOrder(t), n, k, InOrder(Inserted(ed, t, n)))
  {
    if t.Nil? {
      k := 0;
    } else {
      SortedParts(t);
      var l, r := InOrder(t.left), InOrder(t.right);
      AdmitsParts(l, t.node, r, n.range);
      if n.range.CompareTo(t.node.range) > 0 {
        var j := InsertedIsPlaced(ed, t.right, n);
        BalanceInOrder(ed, Fork(t.left, t.node, t.height, Inserted(ed, t.right, n)));
        k := |l| + 1 + j;
        PlacedInRight(l, t.node, r, n, j, InOrder(Inserted(ed, t.right, n)));
      } else {
        k := InsertedIsPlaced(ed, t.left, n);
        BalanceInOrder(ed, Fork(Inserted(ed, t.left, n), t.node, t.height, t.right));
        PlacedInLeft(l, t.node, r, n, k, InOrder(Inserted(ed, t.left, n)));
      }
    }
  }

  lemma PlacedInRight<V>(l: seq<Node<V>>, x: Node<V>, r: seq<Node<V>>, n: Node<V>, j: nat, ys: seq<Node<V>>)
    requires PlacedAt(r, n, j, ys)
    requires x.range.Precedes(n.range) && forall y <- l :: y.range.Precedes(x.range)
    ensures PlacedAt(l + [x] + r, n, |l| + 1 + j, l + [x] + ys)
  {
    var xs, k := l + [x] + r, |l| + 1 + j;
    assert xs[..k] == l + [x] + r[..j] && xs[k..] == r[j..];
  }

  lemma PlacedInLeft<V>(l: seq<Node<V>>, x: Node<V>, r: seq<Node<V>>, n: Node<V>, k: nat, ys: seq<Node<V>>)
    requires PlacedAt(l, n, k, ys)
    requires n.range.Precedes(x.range) && forall y <- r :: x.range.Precedes(y.range)
    ensures PlacedAt(l + [x] + r, n, k, ys + [x] + r)
  {
    var xs := l + [x] + r;
    assert xs[..k] == l[..k] && xs[k..] == l[k..] + [x] + r;
  }

  /** Insertion adds exactly the new node. */
  lemma {:induction false} InsertedNodes<V>(ed: Edition, t: Shape<V>, n: Node<V>)
    requires Sane(t) && Distinct(t) && n !in Nodes(t)
    ensures Nodes(Inserted(ed, t, n)) == Nodes(t) + {n}
    ensures Distinct(Inserted(ed, t, n))
  {
    if t.Fork? {
      if n.range.CompareTo(t.node.range) > 0 {
        InsertedNodes(ed, t.right, n);
        BalanceRearranges(ed, Fork(t.left, t.node, t.height, Inserted(ed, t.right, n)));
      } else {
        InsertedNodes(ed, t.left, n);
        BalanceRearranges(ed, Fork(Inserted(ed, t.left, n), t.node, t.height, t.right));
      }
    }
  }

  // ---------------------------------------------------------------- erasure

  /** `r` hung under the last node of `l`. */
  function Grafted<V>(l: Shape<V>, r: Shape<V>): (g: Shape<V>)
    requires l.Fork?
    ensures Height(g) >= Height(l)
    ensures Sane(l) && Sane(r) ==> Sane(g)
  {
    Fork(l.left, l.node, l.height, if l.right.Nil? then r else Grafted(l.right, r))
  }

  /** The way down the right links of a subtree, as the context of its last node. */
  function LastCtx<V>(c: Ctx<V>, l: Shape<V>): (d: Ctx<V>)
    requires l.Fork?
    ensures SaneCtx(c) && Sane(l) ==> SaneCtx(d)
    decreases l
  {
    if l.right.Nil? then c else LastCtx(InRight(c, l.left, l.node, l.height), l.right)
  }

  function Last<V>(l: Shape<V>): (m: Shape<V>)
    requires l.Fork?
    ensures m.Fork? && m.right.Nil?
    ensures Sane(l) ==> Sane(m)
  {
    if l.right.Nil? then l else Last(l.right)
  }

  /** The last node of `l` with `r` hung under it. */
  function LastWith<V>(l: Shape<V>, r: Shape<V>): (m: Shape<V>)
    requires l.Fork?
    ensures Sane(l) && Sane(r) ==> SaneKids(m)
  {
    Fork(Last(l).left, Last(l).node, Last(l).height, r)
  }

  /**
   The tree left after erasing the node at the root of `t`, in its context.
   A node with two children hands its place to the left one, and the right one
   goes under the last node of the left; rebalancing starts there, except at
   the root of the tree, where only the new root is balanced.
   */
  function Erased<V>(ed: Edition, c: Ctx<V>, t: Shape<V>): (u: Shape<V>)
    requires t.Fork? && Sane(t) && SaneCtx(c)
    ensures Sane(u)
  {
    if t.left.Fork? && t.right.Fork? then
      if c.Whole? then Balance(ed, Grafted(t.left, t.right))
      else Rebalanced(ed, LastCtx(c, t.left), LastWith(t.left, t.right))
    else
      var child := if t.left.Fork? then t.left else t.right;
      assert Sane(child);
      if c.Whole? then (if child.Nil? then Nil else Balance(ed, child))
      else Rebalanced(ed, c.up, Refit(c, child))
  }

  lemma {:induction false} GraftedPlugs<V>(c: Ctx<V>, l: Shape<V>, r: Shape<V>)
    requires l.Fork?
    ensures Plug(LastCtx(c, l), LastWith(l, r)) == Plug(c, Grafted(l, r))
    ensures Plug(LastCtx(c, l), Last(l)) == Plug(c, l)
    decreases l
  {
    if l.right.Fork? {
      GraftedPlugs(InRight(c, l.left, l.node, l.height), l.right, r);
    }
  }

  lemma {:induction false} GraftedJoins<V>(l: Shape<V>, r: Shape<V>)
    requires l.Fork?
    ensures InOrder(Grafted(l, r)) == InOrder(l) + InOrder(r)
    ensures Nodes(Grafted(l, r)) == Nodes(l) + Nodes(r)
    ensures Distinct(l) && Distinct(r) && Nodes(l) !! Nodes(r) ==> Distinct(Grafted(l, r))
  {
    if l.right.Fork? {
      GraftedJoins(l.right, r);
    }
  }

  /** What fills the hole once the node at the root of `t` is gone. */
  function Joined<V>(t: Shape<V>): (s: Shape<V>)
    requires t.Fork?
    ensures Sane(t) ==> Sane(s)
  {
    if t.left.Nil? then t.right else if t.right.Nil? then t.left else Grafted(t.left, t.right)
  }

  lemma ErasedRearranges<V>(ed: Edition, c: Ctx<V>, t: Shape<V>)
    requires t.Fork? && Sane(t) && SaneCtx(c)
    ensures Rearranged(Plug(c, Joined(t)), Erased(ed, c, t))
  {
    if t.left.Fork? && t.right.Fork? {
      if c.Whole? {
        BalanceRearranges(ed, Joined(t));
      } else {
        GraftedPlugs(c, t.left, t.right);
        RebalancedRearranges(ed, LastCtx(c, t.left), LastWith(t.left, t.right));
      }
    } else if !c.Whole? {
      RebalancedRearranges(ed, c.up, Refit(c, Joined(t)));
    } else if Joined(t).Fork? {
      BalanceRearranges(ed, Joined(t));
    }
  }

  lemma JoinedDrops<V>(t: Shape<V>)
    requires t.Fork?
    ensures InOrder(Joined(t)) == InOrder(t.left) + InOrder(t.right)
    ensures Nodes(Joined(t)) == Nodes(t.left) + Nodes(t.right)
    ensures Distinct(t) ==> Distinct(Joined(t))
  {
    if t.left.Fork? && t.right.Fork? {
      GraftedJoins(t.left, t.right);
    }
  }

  lemma JoinedApart<V>(c: Ctx<V>, t: Shape<V>)
    requires t.Fork? && Apart(c, t)
    ensures Apart(c, Joined(t)) && Nodes(Joined(t)) <= Nodes(t)
    ensures Nodes(Joined(t)) + Rest(c) == (Nodes(t) + Rest(c)) - {t.node}
  {
    JoinedDrops(t);
  }

  /** `ys` is `xs` without the `x` at position `k`. */
  ghost predicate DroppedAt<V>(xs: seq<Node<V>>, x: Node<V>, k: nat, ys: seq<Node<V>>) {
    k < |xs| && xs[k] == x && ys == xs[..k] + xs[k + 1..]
  }

  /** Erasure takes out exactly the erased node and leaves the rest in order. */
  lemma ErasedDrops<V>(ed: Edition, c: Ctx<V>, t: Shape<V>) returns (k: nat)
    requires t.Fork? && Sane(t) && SaneCtx(c)
    ensures DroppedAt(InOrder(Plug(c, t)), t.node, k, InOrder(Erased(ed, c, t)))
  {
    ErasedRearranges(ed, c, t);
    JoinedDrops(t);
    PlugInOrder(c, t);
    PlugInOrder(c, Joined(t));
    k := |Before(c) + InOrder(t.left)|;
    DropMiddle(Before(c), InOrder(t.left), t.node, InOrder(t.right), After(c));
  }

  lemma DropMiddle<T>(b: seq<T>, l: seq<T>, x: T, r: seq<T>, a: seq<T>)
    ensures var xs := b + (l + [x] + r) + a; var k := |b + l|;
      xs[k] == x && b + (l + r) + a == xs[..k] + xs[k + 1..]
  {
    var xs := b + (l + [x] + r) + a;
    assert xs == (b + l) + ([x] + (r + a));
  }

  lemma ErasedNodes<V>(ed: Edition, c: Ctx<V>, t: Shape<V>)
    requires t.Fork? && Sane(t) && SaneCtx(c) && Apart(c, t)
    ensures Nodes(Erased(ed, c, t)) == Nodes(Plug(c, t)) - {t.node}
    ensures Distinct(Erased(ed, c, t))
  {
    ErasedRearranges(ed, c, t);
    JoinedDrops(t);
    PlugNodes(c, t);
    PlugNodes(c, Joined(t));
    PlugDistinct(c, Joined(t));
  }

  /** Two views of one tree. */
  lemma ApartElsewhere<V>(c: Ctx<V>, s: Shape<V>, d: Ctx<V>, u: Shape<V>)
    requires Apart(c, s) && Plug(d, u) == Plug(c, s)
    ensures Apart(d, u) && Nodes(u) + Rest(d) == Nodes(s) + Rest(c)
  {
    PlugNodes(c, s);
    PlugDistinct(c, s);
    PlugNodes(d, u);
    PlugDistinct(d, u);
  }

  lemma DropStaysSorted<V>(xs: seq<Node<V>>, x: Node<V>, k: nat, ys: seq<Node<V>>)
    requires Sorted(xs) && DroppedAt(xs, x, k, ys)
    ensures Sorted(ys)
  {
  }

  /** Every node of a tree has a context. */
  lemma {:induction false} Located<V>(c: Ctx<V>, t: Shape<V>, n: Node<V>) returns (d: Ctx<V>, u: Shape<V>)
    requires n in Nodes(t)
    ensures Plug(d, u) == Plug(c, t) && u.Fork? && u.node == n
    decreases t
  {
    if n == t.node {
      d, u := c, t;
    } else if n in Nodes(t.left) {
      d, u := Located(InLeft(c, t.node, t.height, t.right), t.left, n);
    } else {
      d, u := Located(InRight(c, t.left, t.node, t.height), t.right, n);
    }
  }
}
