/**
 The nodes of the range tree, the shapes they are linked into, and what each
 pointer rewrite does to a shape.

 A `Shape` is the tree as a value: it names the heap nodes it is built of, in
 place, together with the height each node stores.  A `Ctx` is the rest of a
 tree around one of its subtrees.  `Holds` and `Around` say that the heap
 links are exactly those of a shape or of a context.
 */
module Shapes {
  import opened Ranges

  function Max(a: int, b: int): int {
    if a > b then a else b
  }

  class Node<V> {
    const range: Range
    const value: V
    var top: Node?<V>
    var left: Node?<V>
    var right: Node?<V>
    var height: int

    /** The node's memory has not been given back to the system. */
    ghost var live: bool

    constructor (range: Range, value: V, height: int)
      ensures this.range == range && this.value == value && this.height == height && live
      ensures top == null && left == null && right == null
    {
      this.range, this.value, this.height := range, value, height;
      top, left, right, live := null, null, null, true;
    }

    /** Hangs the subtree `t` rooted at `child` under this node. */
    method SetLeft(child: Node?<V>, ghost t: Shape<V>)
      requires Rooted(t, child) && Distinct(t) && this !in Nodes(t)
      modifies this`left, (if child == null then {} else {child})`top
      ensures left == child && Holds(t, child, this)
    {
      ShapeAllocated(t);
      left := child;
      assert t.Fork? ==> Holds(t.left, child.left, child) && Holds(t.right, child.right, child);
      if child != null {
        child.top := this;
        assert Holds(t.left, child.left, child) && Holds(t.right, child.right, child);
      }
    }

    /** Hangs the subtree `t` rooted at `child` under this node. */
    method SetRight(child: Node?<V>, ghost t: Shape<V>)
      requires Rooted(t, child) && Distinct(t) && this !in Nodes(t)
      modifies this`right, (if child == null then {} else {child})`top
      ensures right == child && Holds(t, child, this)
    {
      ShapeAllocated(t);
      right := child;
      assert t.Fork? ==> Holds(t.left, child.left, child) && Holds(t.right, child.right, child);
      if child != null {
        child.top := this;
        assert Holds(t.left, child.left, child) && Holds(t.right, child.right, child);
      }
    }

    method FixHeight(ghost l: Shape<V>, ghost r: Shape<V>)
      requires Holds(l, left, this) && Holds(r, right, this)
      requires this !in Nodes(l) && this !in Nodes(r) && live
      modifies this`height
      ensures Rooted(Fixed(l, this, r), this)
    {
      ShapeAllocated(l);
      ShapeAllocated(r);
      assert Rooted(l, left) && Rooted(r, right);
      var hl := HeightOf(left);
      var hr := HeightOf(right);
      height := (if hl > hr then hl else hr) + 1;
      assert Holds(l, left, this) && Holds(r, right, this);
    }
  }

  function HeightOf<V>(node: Node?<V>): int
    reads node
  {
    if node == null then 0 else node.height
  }

  function FactorOf<V>(node: Node?<V>): int
    reads node, if node == null then {} else {node.left, node.right}
  {
    if node == null then 0 else HeightOf(node.left) - HeightOf(node.right)
  }

  // ---------------------------------------------------------------- shapes

  datatype Shape<V> = Nil | Fork(left: Shape<V>, node: Node<V>, height: int, right: Shape<V>)

  function Stored<V>(t: Shape<V>): (h: int)
    ensures Sane(t) ==> 0 <= h <= Height(t)
  {
    if t.Nil? then 0 else t.height
  }

  function Height<V>(t: Shape<V>): nat {
    if t.Nil? then 0 else 1 + Max(Height(t.left), Height(t.right))
  }

  function Size<V>(t: Shape<V>): nat {
    if t.Nil? then 0 else Size(t.left) + 1 + Size(t.right)
  }

  function InOrder<V>(t: Shape<V>): seq<Node<V>> {
    if t.Nil? then [] else InOrder(t.left) + [t.node] + InOrder(t.right)
  }

  ghost function Nodes<V>(t: Shape<V>): set<Node<V>> {
    if t.Nil? then {} else Nodes(t.left) + {t.node} + Nodes(t.right)
  }

  /** A node over two subtrees, with its height recomputed from theirs. */
  function Fixed<V>(l: Shape<V>, x: Node<V>, r: Shape<V>): (f: Shape<V>)
    ensures Sane(l) && Sane(r) ==> Sane(f)
  {
    Fork(l, x, Max(Stored(l), Stored(r)) + 1, r)
  }

  ghost function RootOf<V>(t: Shape<V>): (root: Node?<V>)
    ensures root != null ==> root in Nodes(t)
  {
    if t.Nil? then null else t.node
  }

  /** No node occurs twice. */
  ghost predicate Distinct<V>(t: Shape<V>) {
    t.Fork? ==>
      && t.node !in Nodes(t.left) && t.node !in Nodes(t.right)
      && Nodes(t.left) !! Nodes(t.right)
      && Distinct(t.left) && Distinct(t.right)
  }

  /** Every stored height lies between 0 and the real height of its subtree. */
  ghost predicate Sane<V>(t: Shape<V>) {
    t.Fork? ==> 0 <= t.height <= Height(t) && Sane(t.left) && Sane(t.right)
  }

  /** `n` is the root of a heap tree of live nodes, linked and sized as `t`; its own parent link is not looked at. */
  ghost predicate Rooted<V>(t: Shape<V>, n: Node?<V>)
    reads Nodes(t)
    decreases t, 0
  {
    n == RootOf(t) && (t.Fork? ==>
      && t.node.live && t.node.height == t.height
      && Holds(t.left, t.node.left, t.node)
      && Holds(t.right, t.node.right, t.node))
  }

  /** As `Rooted`, with the parent link of `n` exact as well. */
  ghost predicate Holds<V>(t: Shape<V>, n: Node?<V>, top: Node?<V>)
    reads Nodes(t)
    decreases t, 1
  {
    n == RootOf(t) && Rooted(t, n) && (t.Fork? ==> t.node.top == top)
  }

  // -------------------------------------------------------------- contexts

  datatype Ctx<V> =
    | Whole
    | InLeft(up: Ctx<V>, node: Node<V>, height: int, right: Shape<V>)
    | InRight(up: Ctx<V>, left: Shape<V>, node: Node<V>, height: int)

  function Plug<V>(c: Ctx<V>, t: Shape<V>): Shape<V>
    decreases c
  {
    match c
    case Whole => t
    case InLeft(up, x, h, r) => Plug(up, Fork(t, x, h, r))
    case InRight(up, l, x, h) => Plug(up, Fork(l, x, h, t))
  }

  function Before<V>(c: Ctx<V>): seq<Node<V>> {
    match c
    case Whole => []
    case InLeft(up, x, h, r) => Before(up)
    case InRight(up, l, x, h) => Before(up) + InOrder(l) + [x]
  }

  function After<V>(c: Ctx<V>): seq<Node<V>> {
    match c
    case Whole => []
    case InLeft(up, x, h, r) => [x] + InOrder(r) + After(up)
    case InRight(up, l, x, h) => After(up)
  }

  /** The parent of the hole; `base` is what the outermost node hangs under, nothing for a whole tree. */
  ghost function Parent<V>(c: Ctx<V>, base: Node?<V> := null): Node?<V> {
    if c.Whole? then base else c.node
  }

  ghost function Rest<V>(c: Ctx<V>): set<Node<V>> {
    match c
    case Whole => {}
    case InLeft(up, x, h, r) => Rest(up) + {x} + Nodes(r)
    case InRight(up, l, x, h) => Rest(up) + {x} + Nodes(l)
  }

  function Sibling<V>(c: Ctx<V>): Shape<V>
    requires !c.Whole?
  {
    if c.InLeft? then c.right else c.left
  }

  /** One step up: the subtree rooted at the parent of the hole. */
  function Refit<V>(c: Ctx<V>, t: Shape<V>): Shape<V>
    requires !c.Whole?
  {
    if c.InLeft? then Fork(t, c.node, c.height, c.right) else Fork(c.left, c.node, c.height, t)
  }

  ghost predicate DistinctCtx<V>(c: Ctx<V>) {
    !c.Whole? ==>
      && c.node !in Rest(c.up) && c.node !in Nodes(Sibling(c))
      && Nodes(Sibling(c)) !! Rest(c.up)
      && Distinct(Sibling(c)) && DistinctCtx(c.up)
  }

  /** A subtree and a context that share no node. */
  ghost predicate Apart<V>(c: Ctx<V>, t: Shape<V>) {
    Distinct(t) && DistinctCtx(c) && Nodes(t) !! Rest(c)
  }

  ghost predicate SaneCtx<V>(c: Ctx<V>) {
    !c.Whole? ==> Sane(Sibling(c)) && SaneCtx(c.up)
  }

  /** The heap around a subtree rooted at `n` is linked as `c`, its nodes live. */
  ghost predicate Around<V>(c: Ctx<V>, n: Node?<V>, base: Node?<V> := null)
    reads Rest(c)
  {
    match c
    case Whole => true
    case InLeft(up, x, h, r) =>
      x.live && x.left == n && x.height == h && x.top == Parent(up, base) && Holds(r, x.right, x) && Around(up, x, base)
    case InRight(up, l, x, h) =>
      x.live && x.right == n && x.height == h && x.top == Parent(up, base) && Holds(l, x.left, x) && Around(up, x, base)
  }

  lemma RefitInOrder<V>(c: Ctx<V>, t: Shape<V>)
    requires !c.Whole?
    ensures Before(c.up) + InOrder(Refit(c, t)) + After(c.up) == Before(c) + InOrder(t) + After(c)
  {
    var b, m, a, x := Before(c.up), InOrder(t), After(c.up), [c.node];
    var s := InOrder(Sibling(c));
    assert b + (m + x + s) + a == b + m + (x + s + a);
    assert b + (s + x + m) + a == b + s + x + m + a;
  }

  lemma {:induction false} PlugInOrder<V>(c: Ctx<V>, t: Shape<V>)
    ensures InOrder(Plug(c, t)) == Before(c) + InOrder(t) + After(c)
    decreases c
  {
    if !c.Whole? {
      PlugInOrder(c.up, Refit(c, t));
      RefitInOrder(c, t);
    }
  }

  lemma {:induction false} PlugNodes<V>(c: Ctx<V>, t: Shape<V>)
    ensures Nodes(Plug(c, t)) == Rest(c) + Nodes(t)
    decreases c
  {
    if !c.Whole? {
      PlugNodes(c.up, Refit(c, t));
    }
  }

  lemma {:induction false} PlugDistinct<V>(c: Ctx<V>, t: Shape<V>)
    ensures Distinct(Plug(c, t)) <==> Apart(c, t)
    decreases c
  {
    if !c.Whole? {
      PlugDistinct(c.up, Refit(c, t));
    }
  }

  /** A heap tree, and the same tree seen from one of its subtrees. */
  lemma {:induction false} PlugHolds<V>(c: Ctx<V>, t: Shape<V>, base: Node?<V> := null)
    ensures Holds(Plug(c, t), RootOf(Plug(c, t)), base)
      <==> Holds(t, RootOf(t), Parent(c, base)) && Around(c, RootOf(t), base)
    decreases c
  {
    if !c.Whole? {
      PlugHolds(c.up, Refit(c, t), base);
      var x := c.node;
      assert Rooted(Refit(c, t), x) <==>
        (x.live && x.height == c.height && Holds(Refit(c, t).left, x.left, x) && Holds(Refit(c, t).right, x.right, x));
    }
  }

  lemma {:induction false} PlugSize<V>(c: Ctx<V>, t: Shape<V>, u: Shape<V>)
    ensures Size(Plug(c, t)) - Size(t) == Size(Plug(c, u)) - Size(u)
    decreases c
  {
    if !c.Whole? {
      PlugSize(c.up, Refit(c, t), Refit(c, u));
    }
  }

  lemma {:induction false} SizeIsLength<V>(t: Shape<V>)
    ensures Size(t) == |InOrder(t)|
  {
    if t.Fork? {
      SizeIsLength(t.left);
      SizeIsLength(t.right);
    }
  }

  lemma {:induction false} NodesInOrder<V>(t: Shape<V>)
    ensures forall x :: x in Nodes(t) <==> x in InOrder(t)
    ensures forall i :: 0 <= i < |InOrder(t)| ==> InOrder(t)[i] in Nodes(t)
  {
    if t.Fork? {
      NodesInOrder(t.left);
      NodesInOrder(t.right);
    }
  }

  lemma {:induction false} HeightAtMostSize<V>(t: Shape<V>)
    ensures Height(t) <= Size(t)
  {
    if t.Fork? {
      HeightAtMostSize(t.left);
      HeightAtMostSize(t.right);
    }
  }

  /** What a shape or a context is built of exists in the heap. */
  lemma {:induction false} ShapeAllocated<V>(t: Shape<V>)
    ensures forall x {:trigger x in Nodes(t)} :: x in Nodes(t) ==> allocated(x)
  {
    if t.Fork? {
      ShapeAllocated(t.left);
      ShapeAllocated(t.right);
    }
  }

  lemma {:induction false} CtxAllocated<V>(c: Ctx<V>)
    ensures forall x {:trigger x in Rest(c)} :: x in Rest(c) ==> allocated(x)
    decreases c
  {
    if !c.Whole? {
      ShapeAllocated(Sibling(c));
      CtxAllocated(c.up);
    }
  }
}
