/**
 What insertion as written does to the balance of the range tree.

 A new leaf stores the height of an absent node, and `balance` tests and turns
 the child that it does not lift.  So a step may rotate too early, too late or
 the wrong way.  This module says exactly when one step leaves a subtree level,
 and exactly when a whole insertion into a level tree does, by real heights.
 */
module AsWrittenBalancing {
  import opened Basics
  import opened Ranges
  import opened Shapes
  import opened Rotations
  import opened TreeSpec
  import opened Balancing
  import opened Iteration

  /** How far the real heights of a node's subtrees are apart. */
  function Lean<V>(t: Shape<V>): int {
    if t.Nil? then 0 else Height(t.left) - Height(t.right)
  }

  /** Real heights of siblings differ by at most one. */
  ghost predicate Level<V>(t: Shape<V>) {
    t.Fork? ==> -1 <= Lean(t) <= 1 && Level(t.left) && Level(t.right)
  }

  /** What is wrong with the balance of a subtree: nothing, its root alone, or something under the root. */
  datatype Flaw = Sound | AtRoot | Below

  ghost function FlawOf<V>(t: Shape<V>): Flaw {
    if Level(t) then Sound else if Level(t.left) && Level(t.right) then AtRoot else Below
  }

  // -------------------------------------------------------------- one step

  /** The child that stays below, turned as written if its stored heights say so. */
  function TurnedRight<V>(r: Shape<V>): Shape<V>
    requires Sane(r)
  {
    if Factor(r) < 0 then RotRight(r) else r
  }

  function TurnedLeft<V>(l: Shape<V>): Shape<V>
    requires Sane(l)
  {
    if Factor(l) > 0 then RotLeft(l) else l
  }

  /** The turn does no harm: by real heights, too, the child leans that way, and its grandchild does not lean back. */
  predicate TurnsRight<V>(r: Shape<V>)
    requires Sane(r)
  {
    Factor(r) < 0 ==> Lean(r) < 0 && Lean(r.right) <= 0
  }

  predicate TurnsLeft<V>(l: Shape<V>)
    requires Sane(l)
  {
    Factor(l) > 0 ==> Lean(l) > 0 && Lean(l.left) >= 0
  }

  lemma {:induction false} TurnedRightLevel<V>(r: Shape<V>)
    requires Sane(r) && Level(r)
    ensures Level(TurnedRight(r)) <==> TurnsRight(r)
    ensures Level(TurnedRight(r)) ==> Height(TurnedRight(r)) == Height(r)
  {
    if Factor(r) < 0 {
      assert Level(r.right);
    }
  }

  /** By real heights: a child is lifted, its outer subtree with it, its inner one put beside the other child. */
  function Lift(outer: nat, inner: nat, other: nat): Flaw {
    if !(-1 <= inner - other <= 1) then Below
    else if -1 <= outer - 1 - Max(inner, other) <= 1 then Sound
    else AtRoot
  }

  /** What a balancing step as written makes of a subtree whose children have the flaws `l` and `r`. */
  function Step<V>(t: Shape<V>, l: Flaw, r: Flaw): Flaw
    requires SaneKids(t)
  {
    var factor := Stored(t.left) - Stored(t.right);
    if factor == 2 then
      if l.Below? || !r.Sound? || !TurnsRight(t.right) then Below
      else Lift(Height(t.left.left), Height(t.left.right), Height(t.right))
    else if factor == -2 then
      if r.Below? || !l.Sound? || !TurnsLeft(t.left) then Below
      else Lift(Height(t.right.right), Height(t.right.left), Height(t.left))
    else if !l.Sound? || !r.Sound? then Below
    else if -1 <= Lean(t) <= 1 then Sound
    else AtRoot
  }

  lemma {:induction false} FixedLevel<V>(l: Shape<V>, x: Node<V>, r: Shape<V>)
    ensures Level(Fixed(l, x, r)) <==> Level(l) && Level(r) && -1 <= Height(l) - Height(r) <= 1
    ensures Height(Fixed(l, x, r)) == 1 + Max(Height(l), Height(r))
  {
  }

  lemma {:induction false} LiftLevels<V>(a: Shape<V>, x: Node<V>, b: Shape<V>, y: Node<V>, c: Shape<V>)
    ensures FlawOf(Fixed(a, x, Fixed(b, y, c)))
      == if Level(a) && Level(b) && Level(c) then Lift(Height(a), Height(b), Height(c)) else Below
  {
    var inner := Fixed(b, y, c);
    FixedLevel(b, y, c);
    FixedLevel(a, x, inner);
  }

  // -------------------------------------------------------------- symmetry

  function Mirror<V>(t: Shape<V>): Shape<V> {
    if t.Nil? then Nil else Fork(Mirror(t.right), t.node, t.height, Mirror(t.left))
  }

  lemma {:induction false} MirrorKeeps<V>(t: Shape<V>)
    ensures Mirror(Mirror(t)) == t && Stored(Mirror(t)) == Stored(t) && Height(Mirror(t)) == Height(t)
    ensures (Sane(Mirror(t)) <==> Sane(t)) && (Level(Mirror(t)) <==> Level(t)) && (Computed(Mirror(t)) <==> Computed(t))
    ensures FlawOf(Mirror(t)) == FlawOf(t)
  {
    if t.Fork? {
      MirrorKeeps(t.left);
      MirrorKeeps(t.right);
    }
  }

  lemma {:induction false} MirrorFactor<V>(t: Shape<V>)
    ensures Factor(Mirror(t)) == -Factor(t) && Lean(Mirror(t)) == -Lean(t)
  {
    if t.Fork? {
      MirrorKeeps(t.left);
      MirrorKeeps(t.right);
    }
  }

  lemma {:induction false} MirrorFixed<V>(l: Shape<V>, x: Node<V>, r: Shape<V>)
    ensures Fixed(Mirror(r), x, Mirror(l)) == Mirror(Fixed(l, x, r))
  {
    MirrorKeeps(l);
    MirrorKeeps(r);
  }

  lemma {:induction false} MirrorTurns<V>(t: Shape<V>)
    requires Sane(t) && Sane(Mirror(t))
    ensures TurnedLeft(Mirror(t)) == Mirror(TurnedRight(t))
    ensures TurnsLeft(Mirror(t)) <==> TurnsRight(t)
  {
    MirrorFactor(t);
    if Factor(t) < 0 {
      var r := t.right;
      MirrorFactor(r);
      MirrorFixed(t.left, t.node, r.left);
      MirrorFixed(Fixed(t.left, t.node, r.left), r.node, r.right);
    }
  }

  /** A flawed child must not become level by being turned; a level one may do as it likes. */
  ghost predicate TurningMendsNothing<V>(t: Shape<V>)
    requires SaneKids(t)
  {
    var factor := Stored(t.left) - Stored(t.right);
    && (factor == 2 && Level(TurnedRight(t.right)) ==> Level(t.right))
    && (factor == -2 && Level(TurnedLeft(t.left)) ==> Level(t.left))
  }

  lemma {:induction false} MirrorSane<V>(t: Shape<V>)
    requires SaneKids(t)
    ensures SaneKids(Mirror(t)) && Mirror(Mirror(t)) == t
  {
    MirrorKeeps(t.left);
    MirrorKeeps(t.right);
  }

  lemma {:induction false} MirrorLeftBalance<V>(t: Shape<V>)
    requires SaneKids(t) && SaneKids(Mirror(t)) && Stored(t.left) - Stored(t.right) != -2
    ensures Balance(AsWritten, Mirror(t)) == Mirror(Balance(AsWritten, t))
  {
    var l, x, r := t.left, t.node, t.right;
    MirrorFixed(l, x, r);
    MirrorFactor(Fixed(l, x, r));
    if Stored(l) - Stored(r) == 2 {
      var q := TurnedRight(r);
      MirrorTurns(r);
      MirrorFixed(l.right, x, q);
      MirrorFixed(l.left, l.node, Fixed(l.right, x, q));
      assert Balance(AsWritten, t) == Fixed(l.left, l.node, Fixed(l.right, x, q));
      assert Balance(AsWritten, Mirror(t)) == Fixed(Fixed(Mirror(q), x, Mirror(l.right)), l.node, Mirror(l.left));
    }
  }

  /** A step treats the two sides alike. */
  lemma {:induction false} MirrorBalance<V>(t: Shape<V>)
    requires SaneKids(t) && SaneKids(Mirror(t))
    ensures Balance(AsWritten, Mirror(t)) == Mirror(Balance(AsWritten, t))
  {
    if Stored(t.left) - Stored(t.right) != -2 {
      MirrorLeftBalance(t);
    } else {
      MirrorSane(t);
      MirrorKeeps(t.left);
      MirrorKeeps(t.right);
      MirrorLeftBalance(Mirror(t));
      MirrorKeeps(Balance(AsWritten, Mirror(t)));
    }
  }

  lemma {:induction false} MirrorLift<V>(t: Shape<V>, l: Flaw, r: Flaw)
    requires SaneKids(t) && SaneKids(Mirror(t)) && Stored(t.left) - Stored(t.right) == 2
    ensures Step(Mirror(t), r, l) == Step(t, l, r)
  {
    var m := Mirror(t);
    assert t.left.Fork? && m.right == Mirror(t.left) && m.left == Mirror(t.right);
    assert m.right.right == Mirror(t.left.left) && m.right.left == Mirror(t.left.right);
    assert Stored(m.left) - Stored(m.right) == -2 && Height(m.left) == Height(t.right) by {
      MirrorKeeps(t.left);
      MirrorKeeps(t.right);
    }
    assert TurnsLeft(m.left) <==> TurnsRight(t.right) by {
      MirrorTurns(t.right);
    }
    assert Height(m.right.right) == Height(t.left.left) && Height(m.right.left) == Height(t.left.right) by {
      MirrorKeeps(t.left.left);
      MirrorKeeps(t.left.right);
    }
  }

  lemma {:induction false} MirrorStill<V>(t: Shape<V>, l: Flaw, r: Flaw)
    requires SaneKids(t) && SaneKids(Mirror(t))
    requires Stored(t.left) - Stored(t.right) != 2 && Stored(t.left) - Stored(t.right) != -2
    ensures Step(Mirror(t), r, l) == Step(t, l, r)
  {
    MirrorKeeps(t.left);
    MirrorKeeps(t.right);
    MirrorFactor(t);
  }

  lemma {:induction false} MirrorStep<V>(t: Shape<V>, l: Flaw, r: Flaw)
    requires SaneKids(t) && SaneKids(Mirror(t))
    ensures Step(Mirror(t), r, l) == Step(t, l, r)
  {
    MirrorKeeps(t.left);
    MirrorKeeps(t.right);
    if Stored(t.left) - Stored(t.right) == 2 {
      MirrorLift(t, l, r);
    } else if Stored(t.left) - Stored(t.right) == -2 {
      MirrorLift(Mirror(t), r, l);
    } else {
      MirrorStill(t, l, r);
    }
  }

  lemma {:induction false} MirrorMends<V>(t: Shape<V>)
    requires SaneKids(t) && SaneKids(Mirror(t)) && TurningMendsNothing(t)
    requires Stored(t.left) - Stored(t.right) == -2
    ensures TurningMendsNothing(Mirror(t)) && Stored(Mirror(t).left) - Stored(Mirror(t).right) == 2
  {
    MirrorKeeps(t.left);
    MirrorKeeps(t.right);
    MirrorTurns(Mirror(t.left));
    MirrorKeeps(TurnedLeft(t.left));
    MirrorKeeps(TurnedRight(Mirror(t.left)));
  }

  lemma {:induction false} TurnedLeftLevel<V>(l: Shape<V>)
    requires Sane(l) && Level(l)
    ensures Level(TurnedLeft(l)) <==> TurnsLeft(l)
    ensures Level(TurnedLeft(l)) ==> Height(TurnedLeft(l)) == Height(l)
  {
    MirrorKeeps(l);
    TurnedRightLevel(Mirror(l));
    MirrorTurns(Mirror(l));
    MirrorKeeps(TurnedRight(Mirror(l)));
  }

  lemma {:induction false} LeftStepIs<V>(t: Shape<V>)
    requires SaneKids(t) && TurningMendsNothing(t) && Stored(t.left) - Stored(t.right) == 2
    ensures FlawOf(Balance(AsWritten, t)) == Step(t, FlawOf(t.left), FlawOf(t.right))
  {
    var l, r := t.left, t.right;
    var q := TurnedRight(r);
    assert Balance(AsWritten, t) == Fixed(l.left, l.node, Fixed(l.right, t.node, q));
    LiftLevels(l.left, l.node, l.right, t.node, q);
    if Level(r) {
      TurnedRightLevel(r);
    }
  }

  lemma {:induction false} RightStepIs<V>(t: Shape<V>)
    requires SaneKids(t) && TurningMendsNothing(t) && Stored(t.left) - Stored(t.right) == -2
    ensures FlawOf(Balance(AsWritten, t)) == Step(t, FlawOf(t.left), FlawOf(t.right))
  {
    MirrorSane(t);
    MirrorMends(t);
    LeftStepIs(Mirror(t));
    MirrorKeeps(t.left);
    MirrorKeeps(t.right);
    MirrorBalance(t);
    MirrorKeeps(Balance(AsWritten, t));
    MirrorStep(t, FlawOf(t.left), FlawOf(t.right));
  }

  /** `Step` is exact. */
  lemma {:induction false} StepIs<V>(t: Shape<V>)
    requires SaneKids(t) && TurningMendsNothing(t)
    ensures FlawOf(Balance(AsWritten, t)) == Step(t, FlawOf(t.left), FlawOf(t.right))
  {
    var factor := Stored(t.left) - Stored(t.right);
    if factor == 2 {
      LeftStepIs(t);
    } else if factor == -2 {
      RightStepIs(t);
    }
  }

  /**
   Where one step as written is enough: the child lifted does not lean inwards
   and the other child may be turned, or no child is lifted and none has to be.
   */
  predicate LeansWell<V>(t: Shape<V>)
    requires SaneKids(t)
  {
    var factor := Stored(t.left) - Stored(t.right);
    if factor == 2 then Lean(t.left) >= 0 && TurnsRight(t.right)
    else if factor == -2 then Lean(t.right) <= 0 && TurnsLeft(t.left)
    else -1 <= Lean(t) <= 1
  }

  lemma {:induction false} LiftByLean<V>(u: Shape<V>, other: nat)
    requires Level(u) && u.Fork? && 1 <= Height(u) - other <= 2
    ensures Lift(Height(u.left), Height(u.right), other) == Sound <==> Lean(u) >= 0
    ensures Lift(Height(u.right), Height(u.left), other) == Sound <==> Lean(u) <= 0
  {
  }

  /**
   Over the subtrees that insertion as written builds, one balancing step
   leaves a level subtree exactly when the subtree leans well.
   */
  lemma {:induction false} AsWrittenLevels<V>(t: Shape<V>)
    requires t.Fork? && Computed(t.left) && Computed(t.right)
    requires Level(t.left) && Level(t.right) && -2 <= Lean(t) <= 2
    ensures SaneKids(t)
    ensures Level(Balance(AsWritten, t)) <==> LeansWell(t)
  {
    ComputedIsClose(t.left);
    ComputedIsClose(t.right);
    StepIs(t);
    if Stored(t.left) - Stored(t.right) == 2 {
      LiftByLean(t.left, Height(t.right));
    } else if Stored(t.left) - Stored(t.right) == -2 {
      LiftByLean(t.right, Height(t.left));
    }
  }

  // ------------------------------------------------------ a whole insertion

  /** The flaw that insertion as written leaves, worked out step by step along the search path. */
  function Judged<V>(t: Shape<V>, n: Node<V>): Flaw
    requires Sane(t)
  {
    if t.Nil? then Sound
    else if n.range.CompareTo(t.node.range) > 0 then
      Step(Fork(t.left, t.node, t.height, Inserted(AsWritten, t.right, n)), Sound, Judged(t.right, n))
    else
      Step(Fork(Inserted(AsWritten, t.left, n), t.node, t.height, t.right), Judged(t.left, n), Sound)
  }

  /**
   What insertion below guarantees the step above: a subtree flawed at its root
   has grown, by its stored height too, and one flawed below its root has grown
   or cannot be mended by a turn.
   */
  ghost predicate Grew<V>(t: Shape<V>, u: Shape<V>)
    requires Sane(u)
  {
    match FlawOf(u)
    case Sound => Height(u) >= Height(t)
    case AtRoot => Height(u) >= Height(t) && Stored(u) >= Height(t)
    case Below => Stored(u) < Height(t) ==> !Level(TurnedLeft(u)) && !Level(TurnedRight(u))
  }

  /** The left child `u` of `t` comes from inserting into a level tree. */
  ghost predicate LeftGrew<V>(t: Shape<V>, u: Shape<V>) {
    && t.Fork? && Level(t) && Sane(t.left) && Sane(t.right) && Sane(u)
    && Height(t.right) - 1 <= Stored(t.right)
    && Computed(u) && Computed(t.right) && Grew(t.left, u)
  }

  /** Where the other child is lifted, a flawed `u` is beyond mending. */
  lemma {:induction false} LeftMends<V>(t: Shape<V>, u: Shape<V>)
    requires LeftGrew(t, u)
    ensures TurningMendsNothing(Fork(u, t.node, t.height, t.right))
    ensures Stored(u) - Stored(t.right) == -2 ==> FlawOf(u) != AtRoot && Stored(u) < Height(t.left)
    ensures Stored(u) - Stored(t.right) == -2 && !Level(u) ==> !Level(TurnedLeft(u))
  {
  }

  lemma {:induction false} GrewStill<V>(t: Shape<V>, u: Shape<V>)
    requires LeftGrew(t, u) && Stored(u) - Stored(t.right) != 2 && Stored(u) - Stored(t.right) != -2
    ensures Sane(Fixed(u, t.node, t.right)) && Grew(t, Fixed(u, t.node, t.right))
  {
    var r := t.right;
    var b := Fixed(u, t.node, r);
    ComputedIsClose(u);
    FixedLevel(u, t.node, r);
    if FlawOf(b) == Below && Stored(b) < Height(t) {
      assert !Level(u);
      if Factor(b) > 0 {
        FixedLevel(u.right, t.node, r);
        FixedLevel(u.left, u.node, Fixed(u.right, t.node, r));
      } else if Factor(b) < 0 {
        FixedLevel(u, t.node, r.left);
        FixedLevel(Fixed(u, t.node, r.left), r.node, r.right);
      }
    }
  }

  lemma {:induction false} LiftedKids<V>(t: Shape<V>, u: Shape<V>) returns (q: Shape<V>)
    requires LeftGrew(t, u) && Stored(u) - Stored(t.right) == 2
    ensures q == TurnedRight(t.right) && (Level(q) ==> Height(q) == Height(t.right))
    ensures u.Fork? && Computed(u.left) && Computed(u.right) && Sane(u.left) && Sane(u.right)
    ensures Height(u.left) - 1 <= Stored(u.left) && Height(u.right) - 1 <= Stored(u.right)
    ensures Max(Stored(u.left), Stored(u.right)) == Stored(t.right) + 1
    ensures Height(u) >= Stored(u) && Height(t.right) <= Stored(t.right) + 1
  {
    q := TurnedRight(t.right);
    TurnedRightLevel(t.right);
    ComputedIsClose(u.left);
    ComputedIsClose(u.right);
  }

  /** The lifted tree, when it is flawed at its root. */
  lemma {:induction false} LiftedAtRoot<V>(t: Shape<V>, u: Shape<V>, q: Shape<V>, b: Shape<V>)
    requires LeftGrew(t, u) && Stored(u) - Stored(t.right) == 2 && q == TurnedRight(t.right)
    requires b == Fixed(u.left, u.node, Fixed(u.right, t.node, q)) && FlawOf(b) == AtRoot
    ensures Stored(b) >= Height(t)
  {
    var q' := LiftedKids(t, u);
    LiftLevels(u.left, u.node, u.right, t.node, q);
  }

  /** The lifted tree, when it is flawed below its root, and turned after all. */
  lemma {:induction false} LiftedThenLeft<V>(t: Shape<V>, u: Shape<V>, q: Shape<V>, b: Shape<V>)
    requires LeftGrew(t, u) && Stored(u) - Stored(t.right) == 2 && q == TurnedRight(t.right)
    requires b == Fixed(u.left, u.node, Fixed(u.right, t.node, q)) && Sane(b)
    requires Stored(b) < Height(t) && Factor(b) > 0
    ensures !Level(RotLeft(b))
  {
    var q' := LiftedKids(t, u);
    var a, inner := u.left, Fixed(u.right, t.node, q);
    ComputedIsClose(a.left);
    FixedLevel(u.right, t.node, q);
    FixedLevel(a.right, u.node, inner);
    FixedLevel(a.left, a.node, Fixed(a.right, u.node, inner));
  }

  lemma {:induction false} LiftedThenRight<V>(t: Shape<V>, u: Shape<V>, q: Shape<V>, b: Shape<V>)
    requires LeftGrew(t, u) && Stored(u) - Stored(t.right) == 2 && q == TurnedRight(t.right)
    requires b == Fixed(u.left, u.node, Fixed(u.right, t.node, q)) && FlawOf(b) == Below
    ensures !Level(RotRight(b))
  {
    var q' := LiftedKids(t, u);
    var v := Fixed(u.left, u.node, u.right);
    FixedLevel(u.left, u.node, u.right);
    FixedLevel(v, t.node, q);
    LiftLevels(u.left, u.node, u.right, t.node, q);
    assert RotRight(b) == Fixed(v, t.node, q);
  }

  lemma {:induction false} GrewLifted<V>(t: Shape<V>, u: Shape<V>, b: Shape<V>)
    requires LeftGrew(t, u) && Stored(u) - Stored(t.right) == 2
    requires u.Fork? && b == Fixed(u.left, u.node, Fixed(u.right, t.node, TurnedRight(t.right))) && Sane(b)
    ensures Grew(t, b)
  {
    var q := LiftedKids(t, u);
    FixedLevel(u.right, t.node, q);
    FixedLevel(u.left, u.node, Fixed(u.right, t.node, q));
    match FlawOf(b)
    case Sound =>
    case AtRoot => LiftedAtRoot(t, u, q, b);
    case Below =>
      if Stored(b) < Height(t) {
        if Factor(b) > 0 {
          LiftedThenLeft(t, u, q, b);
        } else if Factor(b) < 0 {
          LiftedThenRight(t, u, q, b);
        }
      }
  }

  lemma {:induction false} AwayKids<V>(t: Shape<V>, u: Shape<V>) returns (q: Shape<V>)
    requires LeftGrew(t, u) && Stored(u) - Stored(t.right) == -2
    ensures q == TurnedLeft(u) && (Level(q) ==> Height(q) == Height(t.right) - 1 && FlawOf(u) == Sound)
    ensures var r := t.right; r.Fork? && Level(r.left) && Level(r.right) && Sane(r.left) && Sane(r.right)
    ensures Level(q) ==> var r := t.right; Max(Stored(r.left), Stored(r.right)) == Height(r) - 1
    ensures Level(q) ==> Height(t) == Height(t.right) + 1
  {
    q := TurnedLeft(u);
    assert Level(t.right);
    LeftMends(t, u);
    ComputedIsClose(u);
    if Level(u) {
      TurnedLeftLevel(u);
    }
  }

  lemma {:induction false} GrewAway<V>(t: Shape<V>, u: Shape<V>, b: Shape<V>)
    requires LeftGrew(t, u) && Stored(u) - Stored(t.right) == -2
    requires t.right.Fork? && Sane(b)
    requires b == Fixed(Fixed(TurnedLeft(u), t.node, t.right.left), t.right.node, t.right.right)
    ensures Grew(t, b)
  {
    var q := AwayKids(t, u);
    var r := t.right;
    var inner := Fixed(q, t.node, r.left);
    FixedLevel(q, t.node, r.left);
    FixedLevel(inner, r.node, r.right);
    if FlawOf(b) == Below {
      if Factor(b) > 0 {
        FixedLevel(r.left, r.node, r.right);
        FixedLevel(q, t.node, Fixed(r.left, r.node, r.right));
        assert RotLeft(b) == Fixed(q, t.node, Fixed(r.left, r.node, r.right));
      } else if Factor(b) < 0 {
        FixedLevel(inner, r.node, r.right.left);
        FixedLevel(Fixed(inner, r.node, r.right.left), r.right.node, r.right.right);
      }
    }
  }

  lemma {:induction false} LeftStepGrows<V>(t: Shape<V>, u: Shape<V>)
    requires LeftGrew(t, u)
    ensures var b := Balance(AsWritten, Fork(u, t.node, t.height, t.right));
      Grew(t, b) && FlawOf(b) == Step(Fork(u, t.node, t.height, t.right), FlawOf(u), Sound)
  {
    var p := Fork(u, t.node, t.height, t.right);
    LeftMends(t, u);
    StepIs(p);
    if Stored(u) - Stored(t.right) == 2 {
      GrewLifted(t, u, Balance(AsWritten, p));
    } else if Stored(u) - Stored(t.right) == -2 {
      GrewAway(t, u, Balance(AsWritten, p));
    } else {
      GrewStill(t, u);
    }
  }

  lemma {:induction false} MirrorGrew<V>(t: Shape<V>, u: Shape<V>)
    requires Sane(u) && Sane(Mirror(u)) && Grew(t, u)
    ensures Grew(Mirror(t), Mirror(u))
  {
    MirrorKeeps(t);
    MirrorKeeps(u);
    MirrorTurns(u);
    MirrorTurns(Mirror(u));
    MirrorKeeps(TurnedRight(u));
    MirrorKeeps(TurnedLeft(u));
  }

  lemma {:induction false} RightStepGrows<V>(t: Shape<V>, u: Shape<V>)
    requires Sane(Mirror(t)) && LeftGrew(Mirror(t), Mirror(u))
    ensures t.Fork? && SaneKids(Fork(t.left, t.node, t.height, u))
    ensures var b := Balance(AsWritten, Fork(t.left, t.node, t.height, u));
      Grew(t, b) && FlawOf(b) == Step(Fork(t.left, t.node, t.height, u), Sound, FlawOf(u))
  {
    MirrorKeeps(t);
    MirrorKeeps(t.left);
    MirrorKeeps(u);
    var p := Fork(t.left, t.node, t.height, u);
    LeftStepGrows(Mirror(t), Mirror(u));
    MirrorBalance(p);
    MirrorStep(p, Sound, FlawOf(u));
    var b := Balance(AsWritten, p);
    MirrorKeeps(b);
    MirrorGrew(Mirror(t), Mirror(b));
  }

  /**
   Insertion as written into a level tree: `Judged` says exactly what flaw it
   leaves, so the tree is level again exactly when `Judged` finds it sound.
   */
  lemma {:induction false} InsertedAsJudged<V>(t: Shape<V>, n: Node<V>)
    requires Computed(t) && Level(t) && Sane(t)
    ensures FlawOf(Inserted(AsWritten, t, n)) == Judged(t, n)
    ensures Level(Inserted(AsWritten, t, n)) <==> Judged(t, n) == Sound
    ensures Grew(t, Inserted(AsWritten, t, n))
  {
    if t.Fork? {
      ComputedIsClose(t.left);
      ComputedIsClose(t.right);
      if n.range.CompareTo(t.node.range) > 0 {
        var u := Inserted(AsWritten, t.right, n);
        InsertedAsJudged(t.right, n);
        InsertedComputes(AsWritten, t.right, n);
        RightGrows(t, u);
        RightStepGrows(t, u);
      } else {
        InsertedAsJudged(t.left, n);
        InsertedComputes(AsWritten, t.left, n);
        LeftStepGrows(t, Inserted(AsWritten, t.left, n));
      }
    }
  }

  lemma {:induction false} RightGrows<V>(t: Shape<V>, u: Shape<V>)
    requires t.Fork? && Level(t) && Sane(t) && Sane(u)
    requires Height(t.left) - 1 <= Stored(t.left)
    requires Computed(u) && Computed(t.left) && Grew(t.right, u)
    ensures Sane(Mirror(t)) && LeftGrew(Mirror(t), Mirror(u))
  {
    MirrorKeeps(t);
    MirrorKeeps(t.left);
    MirrorKeeps(t.right);
    MirrorKeeps(u);
    MirrorGrew(t.right, u);
  }

  // -------------------------------------------------------------- witnesses

  /** Three ascending insertions make a chain. */
  lemma AsWrittenMakesChain<V>(a: Node<V>, b: Node<V>, c: Node<V>)
    requires a.range.Precedes(b.range) && b.range.Precedes(c.range)
    ensures Inserted(AsWritten, Inserted(AsWritten, Leaf(AsWritten, a), b), c) == ChainOfThree(a, b, c)
    ensures !Level(ChainOfThree(a, b, c))
  {
    assert a.range.Precedes(c.range);
    assert Inserted(AsWritten, Leaf(AsWritten, a), b) == ChainOfTwo(a, b);
    assert Inserted(AsWritten, Leaf(AsWritten, b), c) == ChainOfTwo(b, c);
    assert Inserted(AsWritten, ChainOfTwo(a, b), c) == ChainOfThree(a, b, c);
  }

  lemma ChainIs<V>(a: Node<V>, b: Node<V>, c: Node<V>)
    ensures InOrder(ChainOfTwo(b, c)) == [b, c] && RightSpine(ChainOfTwo(b, c)) == 2
    ensures InOrder(ChainOfThree(a, b, c)) == [a, b, c] && RightSpine(ChainOfThree(a, b, c)) == 3
  {
    assert InOrder(Leaf(AsWritten, c)) == [c] && RightSpine(Leaf(AsWritten, c)) == 1;
  }

  function ChainOfTwo<V>(a: Node<V>, b: Node<V>): Shape<V> {
    Fork(Nil, a, 1, Leaf(AsWritten, b))
  }

  function ChainOfThree<V>(a: Node<V>, b: Node<V>, c: Node<V>): Shape<V> {
    Fork(Nil, a, 2, ChainOfTwo(b, c))
  }

  /** Six insertions, of the later three entries first, hang one such chain to the left of another. */
  function SixInserted<V>(a: Node<V>, b: Node<V>, c: Node<V>, d: Node<V>, e: Node<V>, f: Node<V>): Shape<V> {
    var three := Inserted(AsWritten, Inserted(AsWritten, Leaf(AsWritten, d), e), f);
    Inserted(AsWritten, Inserted(AsWritten, Inserted(AsWritten, three, a), b), c)
  }

  lemma SixInsertedIs<V>(a: Node<V>, b: Node<V>, c: Node<V>, d: Node<V>, e: Node<V>, f: Node<V>)
    requires a.range.Precedes(b.range) && b.range.Precedes(c.range) && c.range.Precedes(d.range)
    requires d.range.Precedes(e.range) && e.range.Precedes(f.range)
    ensures SixInserted(a, b, c, d, e, f) == Fork(ChainOfThree(a, b, c), d, 3, ChainOfTwo(e, f))
    ensures InOrder(SixInserted(a, b, c, d, e, f)) == [a, b, c, d, e, f]
    ensures !ShortSpines(SixInserted(a, b, c, d, e, f))
  {
    AsWrittenMakesChain(d, e, f);
    AsWrittenMakesChain(a, b, c);
    assert a.range.Precedes(d.range) && b.range.Precedes(d.range);
    var right := ChainOfTwo(e, f);
    assert Inserted(AsWritten, ChainOfThree(d, e, f), a) == Fork(Leaf(AsWritten, a), d, 2, right);
    assert Inserted(AsWritten, Fork(Leaf(AsWritten, a), d, 2, right), b) == Fork(ChainOfTwo(a, b), d, 2, right);
    assert Inserted(AsWritten, Fork(ChainOfTwo(a, b), d, 2, right), c) == Fork(ChainOfThree(a, b, c), d, 3, right);
    ChainIs(a, b, c);
    ChainIs(d, e, f);
  }
}
