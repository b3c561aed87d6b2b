/**
 How balanced the range tree is.

 With the repaired double rotation and leaf height, insertion keeps an AVL
 tree, so heights are logarithmic.  In either edition stored heights are
 bounded by the number of entries.  What insertion as written does to the
 balance is the subject of `AsWrittenBalancing`.
 */
module Balancing {
  import opened Basics
  import opened Ranges
  import opened Shapes
  import opened Rotations
  import opened TreeSpec
  import opened Arithmetic

  /** Stored heights are the real ones and siblings differ by at most one. */
  ghost predicate Avl<V>(t: Shape<V>): (avl: bool)
    ensures avl ==> Sane(t) && Stored(t) == Height(t)
  {
    t.Fork? ==>
      && Avl(t.left) && Avl(t.right)
      && t.height == Height(t)
      && -1 <= Height(t.left) - Height(t.right) <= 1
  }

  /** Both children AVL and at most two levels apart, as one insertion or erasure below leaves them. */
  ghost predicate NearlyAvl<V>(t: Shape<V>) {
    t.Fork? && Avl(t.left) && Avl(t.right) && -2 <= Height(t.left) - Height(t.right) <= 2
  }

  lemma FixedAvl<V>(l: Shape<V>, x: Node<V>, r: Shape<V>)
    requires Avl(l) && Avl(r) && -1 <= Height(l) - Height(r) <= 1
    ensures Avl(Fixed(l, x, r)) && Height(Fixed(l, x, r)) == Max(Height(l), Height(r)) + 1
  {
  }

  /** An AVL subtree leans the way its stored heights say. */
  lemma AvlFactor<V>(t: Shape<V>)
    requires Avl(t)
    ensures t.Fork? ==> Avl(t.left) && Avl(t.right) && Factor(t) == Height(t.left) - Height(t.right)
  {
  }

  /** A double rotation, with four AVL subtrees left to right. */
  lemma DoubleAvl<V>(a: Shape<V>, x: Node<V>, b: Shape<V>, y: Node<V>, c: Shape<V>, z: Node<V>, d: Shape<V>)
    requires Avl(a) && Avl(b) && Avl(c) && Avl(d)
    requires Height(a) == Height(d) == Max(Height(b), Height(c)) && -1 <= Height(b) - Height(c) <= 1
    ensures var r := Fixed(Fixed(a, x, b), y, Fixed(c, z, d)); Avl(r) && Height(r) == Height(a) + 2
  {
    FixedAvl(a, x, b);
    FixedAvl(c, z, d);
    FixedAvl(Fixed(a, x, b), y, Fixed(c, z, d));
  }

  lemma LeftHeavy<V>(t: Shape<V>)
    requires NearlyAvl(t) && Height(t.left) == Height(t.right) + 2
    ensures Avl(Balance(Repaired, t))
    ensures Height(t.left) <= Height(Balance(Repaired, t)) <= Height(t.left) + 1
  {
    var l, r := t.left, t.right;
    assert Factor(Fixed(l, t.node, r)) == 2;
    AvlFactor(l);
    if Factor(l) < 0 {
      var m := l.right;
      DoubleAvl(l.left, l.node, m.left, m.node, m.right, t.node, r);
      assert Balance(Repaired, t) == Fixed(Fixed(l.left, l.node, m.left), m.node, Fixed(m.right, t.node, r));
    } else {
      FixedAvl(l.right, t.node, r);
      FixedAvl(l.left, l.node, Fixed(l.right, t.node, r));
      assert Balance(Repaired, t) == Fixed(l.left, l.node, Fixed(l.right, t.node, r));
    }
  }

  lemma RightHeavy<V>(t: Shape<V>)
    requires NearlyAvl(t) && Height(t.right) == Height(t.left) + 2
    ensures Avl(Balance(Repaired, t))
    ensures Height(t.right) <= Height(Balance(Repaired, t)) <= Height(t.right) + 1
  {
    var l, r := t.left, t.right;
    assert Factor(Fixed(l, t.node, r)) == -2;
    AvlFactor(r);
    if Factor(r) > 0 {
      var m := r.left;
      DoubleAvl(l, t.node, m.left, m.node, m.right, r.node, r.right);
      assert Balance(Repaired, t) == Fixed(Fixed(l, t.node, m.left), m.node, Fixed(m.right, r.node, r.right));
    } else {
      FixedAvl(l, t.node, r.left);
      FixedAvl(Fixed(l, t.node, r.left), r.node, r.right);
      assert Balance(Repaired, t) == Fixed(Fixed(l, t.node, r.left), r.node, r.right);
    }
  }

  /** A repaired balancing step makes a nearly AVL subtree AVL. */
  lemma BalanceAvl<V>(t: Shape<V>)
    requires NearlyAvl(t)
    ensures Avl(Balance(Repaired, t))
    ensures var m := Max(Height(t.left), Height(t.right)); m <= Height(Balance(Repaired, t)) <= m + 1
    ensures -1 <= Height(t.left) - Height(t.right) <= 1 ==>
      Height(Balance(Repaired, t)) == Max(Height(t.left), Height(t.right)) + 1
  {
    if Height(t.left) == Height(t.right) + 2 {
      LeftHeavy(t);
    } else if Height(t.right) == Height(t.left) + 2 {
      RightHeavy(t);
    }
  }

  /** Repaired insertion keeps the AVL property and grows the tree by at most one level. */
  lemma {:induction false} InsertedAvl<V>(t: Shape<V>, n: Node<V>)
    requires Avl(t)
    ensures Avl(Inserted(Repaired, t, n))
    ensures Height(t) <= Height(Inserted(Repaired, t, n)) <= Height(t) + 1
  {
    if t.Fork? {
      if n.range.CompareTo(t.node.range) > 0 {
        InsertedAvl(t.right, n);
        BalanceAvl(Fork(t.left, t.node, t.height, Inserted(Repaired, t.right, n)));
      } else {
        InsertedAvl(t.left, n);
        BalanceAvl(Fork(Inserted(Repaired, t.left, n), t.node, t.height, t.right));
      }
    }
  }

  // ------------------------------------------------------ logarithmic height

  /** The fewest nodes an AVL tree of a given height has. */
  function MinSize(h: nat): nat {
    if h < 2 then h else 1 + MinSize(h - 1) + MinSize(h - 2)
  }

  lemma {:induction false} MinSizeGrows(h: nat)
    ensures MinSize(h) <= MinSize(h + 1)
  {
    if h >= 2 {
      MinSizeGrows(h - 1);
      MinSizeGrows(h - 2);
    }
  }

  lemma {:induction false} MinSizeDoubles(k: nat)
    requires k >= 2
    ensures MinSize(2 * k - 1) >= Pow2(k)
  {
    if k == 2 {
      assert MinSize(3) == 4;
    } else {
      MinSizeDoubles(k - 1);
      MinSizeGrows(2 * k - 3);
    }
  }

  lemma {:induction false} MinSizeMonotone(g: nat, h: nat)
    requires g <= h
    ensures MinSize(g) <= MinSize(h)
    decreases h - g
  {
    if g < h {
      MinSizeGrows(g);
      MinSizeMonotone(g + 1, h);
    }
  }

  lemma {:induction false} AvlHasMinSize<V>(t: Shape<V>)
    requires Avl(t)
    ensures Size(t) >= MinSize(Height(t))
  {
    if t.Fork? {
      AvlHasMinSize(t.left);
      AvlHasMinSize(t.right);
      if 2 <= Height(t) {
        MinSizeMonotone(Height(t) - 2, if Height(t.left) < Height(t.right) then Height(t.left) else Height(t.right));
      }
    }
  }

  /** Fewer than 2^k nodes make at most 2k - 2 levels. */
  lemma AvlHeightLogarithmic<V>(t: Shape<V>, k: nat)
    requires Avl(t) && k >= 2 && Size(t) < Pow2(k)
    ensures Height(t) <= 2 * k - 2
  {
    AvlHasMinSize(t);
    MinSizeDoubles(k);
    if Height(t) >= 2 * k - 1 {
      MinSizeMonotone(2 * k - 1, Height(t));
    }
  }

  // ---------------------------------------------------------- stored heights

  ghost predicate StoredWithin<V>(t: Shape<V>, hi: int) {
    t.Fork? ==> 0 <= t.height <= hi && StoredWithin(t.left, hi) && StoredWithin(t.right, hi)
  }

  lemma {:induction false} SaneWithin<V>(t: Shape<V>, hi: int)
    requires Sane(t) && Height(t) <= hi
    ensures StoredWithin(t, hi)
  {
    if t.Fork? {
      SaneWithin(t.left, hi);
      SaneWithin(t.right, hi);
    }
  }

  /** Every height that a balancing step writes, on the way and at the end, is at most `hi`. */
  ghost predicate WritesWithin<V>(ed: Edition, t: Shape<V>, hi: int)
    requires SaneKids(t)
  {
    var p := Fixed(t.left, t.node, t.right);
    && StoredWithin(p, hi)
    && (Factor(p) == 2 ==> StoredWithin(LeanLeft(ed, p), hi))
    && (Factor(p) == -2 ==> StoredWithin(LeanRight(ed, p), hi))
    && StoredWithin(Balance(ed, t), hi)
  }

  /** A rotation makes a subtree at most one level higher. */
  lemma RotationsWithin<V>(t: Shape<V>, hi: int)
    requires Sane(t) && Height(t) < hi
    ensures t.Fork? && t.left.Fork? ==> StoredWithin(RotLeft(t), hi)
    ensures t.Fork? && t.right.Fork? ==> StoredWithin(RotRight(t), hi)
  {
    if t.Fork? && t.left.Fork? {
      SaneWithin(RotLeft(t), hi);
    }
    if t.Fork? && t.right.Fork? {
      SaneWithin(RotRight(t), hi);
    }
  }

  lemma BalanceWritesWithin<V>(ed: Edition, t: Shape<V>, hi: int)
    requires SaneKids(t) && Height(t.left) < hi && Height(t.right) < hi && Height(Balance(ed, t)) <= hi
    ensures WritesWithin(ed, t, hi)
  {
    SaneWithin(t.left, hi);
    SaneWithin(t.right, hi);
    RotationsWithin(t.left, hi);
    RotationsWithin(t.right, hi);
    SaneWithin(Balance(ed, t), hi);
  }

  /** Up to 127 entries every stored height fits int8_t, whatever was inserted and erased. */
  lemma SmallMapFitsInt8<V>(t: Shape<V>)
    requires Sane(t) && Size(t) <= 127
    ensures StoredWithin(t, 127)
  {
    HeightAtMostSize(t);
    SaneWithin(t, 127);
  }

  /** So does every height written in between. */
  lemma SmallStepFitsInt8<V>(ed: Edition, t: Shape<V>)
    requires SaneKids(t) && Size(t) <= 127
    ensures WritesWithin(ed, t, 127)
  {
    HeightAtMostSize(t.left);
    HeightAtMostSize(t.right);
    var b := Balance(ed, t);
    BalanceRearranges(ed, t);
    SizeIsLength(t);
    SizeIsLength(b);
    HeightAtMostSize(b);
    BalanceWritesWithin(ed, t, 127);
  }

  /** With the repairs, insertions fill any 64-bit count of entries before a stored height leaves int8_t. */
  lemma AvlMapFitsInt8<V>(t: Shape<V>)
    requires Avl(t) && Size(t) < Pow2(64)
    ensures StoredWithin(t, 126)
  {
    AvlHeightLogarithmic(t, 64);
    SaneWithin(t, 126);
  }

  /** So does every height written in between. */
  lemma AvlStepFitsInt8<V>(t: Shape<V>)
    requires NearlyAvl(t) && Size(t) < Pow2(64)
    ensures WritesWithin(Repaired, t, 127)
  {
    AvlHeightLogarithmic(t.left, 64);
    AvlHeightLogarithmic(t.right, 64);
    BalanceAvl(t);
    BalanceWritesWithin(Repaired, t, 127);
  }

  /** What insertions alone keep true of stored heights: only a leaf may store 0 or 1, the rest is computed. */
  ghost predicate Computed<V>(t: Shape<V>) {
    t.Fork? ==>
      && Computed(t.left) && Computed(t.right)
      && (if t.left.Nil? && t.right.Nil? then 0 <= t.height <= 1
          else t.height == Max(Stored(t.left), Stored(t.right)) + 1)
  }

  /** Such heights are the real ones or one less, at every node. */
  lemma {:induction false} ComputedIsClose<V>(t: Shape<V>)
    requires Computed(t)
    ensures Sane(t) && Height(t) - 1 <= Stored(t) <= Height(t)
  {
    if t.Fork? {
      ComputedIsClose(t.left);
      ComputedIsClose(t.right);
    }
  }

  lemma RotationsCompute<V>(t: Shape<V>)
    requires t.Fork? && Computed(t.left) && Computed(t.right)
    ensures t.left.Fork? ==> Computed(RotLeft(t))
    ensures t.right.Fork? ==> Computed(RotRight(t))
  {
  }

  /** Neither inner rotation spoils the computed heights below a node. */
  lemma LeansCompute<V>(ed: Edition, p: Shape<V>)
    requires SaneKids(p) && Computed(p.left) && Computed(p.right)
    ensures p.left.Fork? ==> var q := LeanLeft(ed, p); Computed(q.left) && Computed(q.right)
    ensures p.right.Fork? ==> var q := LeanRight(ed, p); Computed(q.left) && Computed(q.right)
  {
    if p.left.Fork? {
      RotationsCompute(p.left);
    }
    if p.right.Fork? {
      RotationsCompute(p.right);
    }
  }

  lemma BalanceComputes<V>(ed: Edition, t: Shape<V>)
    requires t.Fork? && Computed(t.left) && Computed(t.right) && SaneKids(t)
    ensures Computed(Balance(ed, t))
  {
    var p := Fixed(t.left, t.node, t.right);
    LeansCompute(ed, p);
    if Factor(p) == 2 {
      RotationsCompute(LeanLeft(ed, p));
    } else if Factor(p) == -2 {
      RotationsCompute(LeanRight(ed, p));
    }
  }

  lemma {:induction false} InsertedComputes<V>(ed: Edition, t: Shape<V>, n: Node<V>)
    requires Computed(t) && Sane(t)
    ensures Computed(Inserted(ed, t, n))
  {
    if t.Fork? {
      if n.range.CompareTo(t.node.range) > 0 {
        InsertedComputes(ed, t.right, n);
        BalanceComputes(ed, Fork(t.left, t.node, t.height, Inserted(ed, t.right, n)));
      } else {
        InsertedComputes(ed, t.left, n);
        BalanceComputes(ed, Fork(Inserted(ed, t.left, n), t.node, t.height, t.right));
      }
    }
  }
}
