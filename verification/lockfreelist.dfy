/**
 The push-only lock-free list, as a transition system.

 Any number of threads run `push_front`, one atomic access at a time: create a
 node, load the head, exchange the old head's back link, exchange the new
 node's forward link, and compare-and-exchange the head.  The compare-exchange
 may fail spuriously, after which the thread loads the head again.  Readers
 load the head and follow forward links.  Atomics are sequentially consistent.
 */
module LockFreeLists {
  import opened Basics

  type Id = nat

  datatype Cell<E> = Cell(element: E, next: Option<Id>, prev: Option<Id>)

  /** Where a thread is in `push_front`; `node` is its new node, `seen` the head it loaded. */
  datatype Pc =
    | Idle
    | Created(node: Id)
    | Loaded(node: Id, seen: Option<Id>)
    | BackLinked(node: Id, seen: Option<Id>)
    | Linked(node: Id, seen: Option<Id>)

  datatype State<E> = State(heap: map<Id, Cell<E>>, head: Option<Id>, pcs: map<Tid, Pc>)

  datatype Action<E> =
    | Create(tid: Tid, node: Id, element: E)
    | Load(tid: Tid)
    | ExchangePrev(tid: Tid)
    | ExchangeNext(tid: Tid)
    | CasSucceeds(tid: Tid)
    | CasFails(tid: Tid)

  function PcOf<E>(s: State<E>, t: Tid): Pc {
    if t in s.pcs then s.pcs[t] else Idle
  }

  ghost predicate Enabled<E(!new)>(s: State<E>, a: Action<E>) {
    match a
    case Create(t, n, e) => PcOf(s, t).Idle? && n !in s.heap
    case Load(t) => PcOf(s, t).Created?
    case ExchangePrev(t) => PcOf(s, t).Loaded? && (PcOf(s, t).seen.Some? ==> PcOf(s, t).seen.value in s.heap)
    case ExchangeNext(t) => PcOf(s, t).BackLinked? && PcOf(s, t).node in s.heap
    case CasSucceeds(t) => PcOf(s, t).Linked? && s.head == PcOf(s, t).seen
    case CasFails(t) => PcOf(s, t).Linked?
  }

  ghost function Apply<E(!new)>(s: State<E>, a: Action<E>): State<E>
    requires Enabled(s, a)
  {
    match a
    case Create(t, n, e) =>
      s.(heap := s.heap[n := Cell(e, None, None)], pcs := s.pcs[t := Created(n)])
    case Load(t) =>
      s.(pcs := s.pcs[t := Loaded(s.pcs[t].node, s.head)])
    case ExchangePrev(t) =>
      var (n, seen) := (s.pcs[t].node, s.pcs[t].seen);
      s.(pcs := s.pcs[t := BackLinked(n, seen)],
         heap := if seen == None then s.heap else s.heap[seen.value := s.heap[seen.value].(prev := Some(n))])
    case ExchangeNext(t) =>
      var (n, seen) := (s.pcs[t].node, s.pcs[t].seen);
      s.(pcs := s.pcs[t := Linked(n, seen)], heap := s.heap[n := s.heap[n].(next := seen)])
    case CasSucceeds(t) =>
      s.(pcs := s.pcs[t := Idle], head := Some(s.pcs[t].node))
    case CasFails(t) =>
      s.(pcs := s.pcs[t := Created(s.pcs[t].node)])
  }

  /** The forward links from `from` pass exactly the nodes `ids`, then end. */
  ghost predicate Chain<E>(heap: map<Id, Cell<E>>, from: Option<Id>, ids: seq<Id>)
    decreases ids
  {
    if ids == [] then from == None
    else from == Some(ids[0]) && ids[0] in heap && Chain(heap, heap[ids[0]].next, ids[1..])
  }

  ghost predicate NoDup(ids: seq<Id>) {
    forall i, j :: 0 <= i < j < |ids| ==> ids[i] != ids[j]
  }

  /** `ids` are the published nodes, newest first. */
  ghost predicate Inv<E>(s: State<E>, ids: seq<Id>) {
    && Chain(s.heap, s.head, ids) && NoDup(ids)
    && (forall t :: t in s.pcs && !s.pcs[t].Idle? ==> s.pcs[t].node in s.heap && s.pcs[t].node !in ids)
    && (forall t, u :: t in s.pcs && u in s.pcs && t != u && !s.pcs[t].Idle? && !s.pcs[u].Idle? ==>
          s.pcs[t].node != s.pcs[u].node)
    && (forall t :: t in s.pcs && s.pcs[t].Linked? ==> s.heap[s.pcs[t].node].next == s.pcs[t].seen)
    && (forall t :: t in s.pcs && (s.pcs[t].Loaded? || s.pcs[t].BackLinked? || s.pcs[t].Linked?) ==>
          s.pcs[t].seen == None || s.pcs[t].seen.value in ids)
  }

  /** The nodes published by a run, newest first. */
  ghost function Pushed<E(!new)>(s: State<E>, a: Action<E>, ids: seq<Id>): seq<Id>
    requires Enabled(s, a)
  {
    if a.CasSucceeds? then [s.pcs[a.tid].node] + ids else ids
  }

  lemma {:induction false} ChainFrame<E>(heap: map<Id, Cell<E>>, heap': map<Id, Cell<E>>, from: Option<Id>, ids: seq<Id>)
    requires Chain(heap, from, ids)
    requires forall i <- ids :: i in heap ==> i in heap' && heap'[i].next == heap[i].next
    ensures Chain(heap', from, ids)
    decreases ids
  {
    if ids != [] {
      ChainFrame(heap, heap', heap[ids[0]].next, ids[1..]);
    }
  }

  lemma {:induction false} ChainInHeap<E>(heap: map<Id, Cell<E>>, from: Option<Id>, ids: seq<Id>)
    requires Chain(heap, from, ids)
    ensures forall i <- ids :: i in heap
    decreases ids
  {
    if ids != [] {
      ChainInHeap(heap, heap[ids[0]].next, ids[1..]);
    }
  }

  /** Every step keeps the invariant, publishing a node exactly when a compare-exchange succeeds. */
  lemma StepInv<E(!new)>(s: State<E>, ids: seq<Id>, a: Action<E>)
    requires Inv(s, ids) && Enabled(s, a)
    ensures Inv(Apply(s, a), Pushed(s, a, ids))
  {
    ChainInHeap(s.heap, s.head, ids);
    var s' := Apply(s, a);
    ChainFrame(s.heap, s'.heap, s.head, ids);
  }

  // ------------------------------------------------------------------- runs

  /** The run `actions` leads from `s` to `s'`; `ids` and `ids'` are what was published before and after. */
  ghost predicate Leads<E(!new)>(s: State<E>, ids: seq<Id>, actions: seq<Action<E>>, s': State<E>, ids': seq<Id>)
    decreases actions
  {
    if actions == [] then s == s' && ids == ids'
    else Enabled(s, actions[0]) &&
         Leads(Apply(s, actions[0]), Pushed(s, actions[0], ids), actions[1..], s', ids')
  }

  /** Published nodes keep their element and their forward link. */
  ghost predicate Frozen<E(!new)>(s: State<E>, ids: seq<Id>, s': State<E>) {
    forall i <- ids :: i in s.heap && i in s'.heap
      && s'.heap[i].element == s.heap[i].element && s'.heap[i].next == s.heap[i].next
  }

  lemma StepFreezes<E(!new)>(s: State<E>, ids: seq<Id>, a: Action<E>)
    requires Inv(s, ids) && Enabled(s, a)
    ensures Frozen(s, ids, Apply(s, a))
    ensures ids <= Pushed(s, a, ids) || ids == Pushed(s, a, ids)[1..]
  {
    ChainInHeap(s.heap, s.head, ids);
  }

  /**
   After any run the forward chain from the head passes exactly the nodes
   whose compare-exchange succeeded, newest first and each once; those
   published before the run are its tail, untouched.
   */
  lemma {:induction false} RunInv<E(!new)>(s: State<E>, ids: seq<Id>, actions: seq<Action<E>>, s': State<E>, ids': seq<Id>)
    requires Inv(s, ids) && Leads(s, ids, actions, s', ids')
    ensures Inv(s', ids') && Frozen(s, ids, s')
    ensures |ids| <= |ids'| && ids'[|ids'| - |ids|..] == ids
    decreases actions
  {
    if actions == [] {
      ChainInHeap(s.heap, s.head, ids);
    } else {
      var a := actions[0];
      StepInv(s, ids, a);
      StepFreezes(s, ids, a);
      RunInv(Apply(s, a), Pushed(s, a, ids), actions[1..], s', ids');
    }
  }

  /**
   A reader that loaded any link to published nodes before the run still
   meets exactly those nodes, in the same order, whatever was pushed since.
   */
  lemma SnapshotStable<E(!new)>(
    s: State<E>, ids: seq<Id>, actions: seq<Action<E>>, s': State<E>, ids': seq<Id>, from: Option<Id>, rest: seq<Id>)
    requires Inv(s, ids) && Leads(s, ids, actions, s', ids')
    requires Chain(s.heap, from, rest) && forall i <- rest :: i in ids
    ensures Chain(s'.heap, from, rest)
    ensures forall seen :: Chain(s'.heap, from, seen) ==> seen == rest
  {
    RunInv(s, ids, actions, s', ids');
    ChainFrame(s.heap, s'.heap, from, rest);
    forall seen | Chain(s'.heap, from, seen) ensures seen == rest {
      ChainUnique(s'.heap, from, seen, rest);
    }
  }

  lemma {:induction false} ChainUnique<E>(heap: map<Id, Cell<E>>, from: Option<Id>, xs: seq<Id>, ys: seq<Id>)
    requires Chain(heap, from, xs) && Chain(heap, from, ys)
    ensures xs == ys
    decreases xs
  {
    if xs != [] && ys != [] {
      ChainUnique(heap, heap[xs[0]].next, xs[1..], ys[1..]);
    }
  }

  lemma InitInv<E(!new)>()
    ensures Inv(State<E>.State(map[], None, map[]), [])
  {
  }

  // ------------------------------------------------------ what becomes of a push

  /** The element is in the list, or the thread that brought it is still at work on its node. */
  ghost predicate OnItsWay<E(!new)>(s: State<E>, ids: seq<Id>, t: Tid, n: Id, e: E) {
    && n in s.heap && s.heap[n].element == e
    && (n in ids || (t in s.pcs && !s.pcs[t].Idle? && s.pcs[t].node == n))
  }

  lemma StepKeepsOnItsWay<E(!new)>(s: State<E>, ids: seq<Id>, a: Action<E>, t: Tid, n: Id, e: E)
    requires Inv(s, ids) && Enabled(s, a) && OnItsWay(s, ids, t, n, e)
    ensures OnItsWay(Apply(s, a), Pushed(s, a, ids), t, n, e)
  {
  }

  lemma {:induction false} RunKeepsOnItsWay<E(!new)>(
    s: State<E>, ids: seq<Id>, actions: seq<Action<E>>, s': State<E>, ids': seq<Id>, t: Tid, n: Id, e: E)
    requires Inv(s, ids) && Leads(s, ids, actions, s', ids') && OnItsWay(s, ids, t, n, e)
    ensures OnItsWay(s', ids', t, n, e)
    decreases actions
  {
    if actions != [] {
      StepInv(s, ids, actions[0]);
      StepKeepsOnItsWay(s, ids, actions[0], t, n, e);
      RunKeepsOnItsWay(Apply(s, actions[0]), Pushed(s, actions[0], ids), actions[1..], s', ids', t, n, e);
    }
  }

  /**
   No push is lost: after any run, each node that a thread created in it holds
   its element, and is in the list unless that thread is still at work on it.
   So a thread that is idle again has pushed what it set out to push.
   */
  lemma {:induction false} PushNotLost<E(!new)>(
    s: State<E>, ids: seq<Id>, actions: seq<Action<E>>, s': State<E>, ids': seq<Id>, i: nat)
    requires Inv(s, ids) && Leads(s, ids, actions, s', ids')
    requires i < |actions| && actions[i].Create?
    ensures OnItsWay(s', ids', actions[i].tid, actions[i].node, actions[i].element)
    ensures PcOf(s', actions[i].tid).Idle? ==> actions[i].node in ids'
    decreases actions
  {
    var a := actions[0];
    var r, more := Apply(s, a), Pushed(s, a, ids);
    StepInv(s, ids, a);
    if i == 0 {
      RunKeepsOnItsWay(r, more, actions[1..], s', ids', a.tid, a.node, a.element);
    } else {
      PushNotLost(r, more, actions[1..], s', ids', i - 1);
    }
  }

  /** The list gains only what threads bring: every node published during a run was under way before or created in it. */
  lemma {:induction false} NothingElsePushed<E(!new)>(
    s: State<E>, ids: seq<Id>, actions: seq<Action<E>>, s': State<E>, ids': seq<Id>, n: Id)
    requires Inv(s, ids) && Leads(s, ids, actions, s', ids') && n in ids' && n !in ids
    ensures n in s.heap || exists i :: 0 <= i < |actions| && actions[i].Create? && actions[i].node == n
    decreases actions
  {
    var a := actions[0];
    var r, more := Apply(s, a), Pushed(s, a, ids);
    StepInv(s, ids, a);
    if n !in more {
      NothingElsePushed(r, more, actions[1..], s', ids', n);
      if n !in r.heap {
        var i :| 0 <= i < |actions[1..]| && actions[1..][i].Create? && actions[1..][i].node == n;
        assert actions[i + 1] == actions[1..][i];
      } else if n !in s.heap {
        assert a.Create? && actions[0].node == n;
      }
    }
  }

  lemma LeadsStep<E(!new)>(s: State<E>, ids: seq<Id>, a: Action<E>, tail: seq<Action<E>>, s': State<E>, ids': seq<Id>)
    requires Enabled(s, a) && Leads(Apply(s, a), Pushed(s, a, ids), tail, s', ids')
    ensures Leads(s, ids, [a] + tail, s', ids')
  {
    assert ([a] + tail)[1..] == tail;
  }

  /** What a thread in the middle of a push does next, if its compare-exchange fails only when it must. */
  ghost function NextOf<E(!new)>(s: State<E>, t: Tid): Action<E>
    requires !PcOf(s, t).Idle?
  {
    match PcOf(s, t)
    case Created(_) => Load(t)
    case Loaded(_, _) => ExchangePrev(t)
    case BackLinked(_, _) => ExchangeNext(t)
    case Linked(_, seen) => if s.head == seen then CasSucceeds(t) else CasFails(t)
  }

  /** How many actions the push still takes with nobody else at work. */
  ghost function Left<E(!new)>(s: State<E>, t: Tid): nat {
    match PcOf(s, t)
    case Idle => 0
    case Created(_) => 4
    case Loaded(_, seen) => if s.head == seen then 3 else 7
    case BackLinked(_, seen) => if s.head == seen then 2 else 6
    case Linked(_, seen) => if s.head == seen then 1 else 5
  }

  lemma NextIsEnabled<E(!new)>(s: State<E>, ids: seq<Id>, t: Tid)
    requires Inv(s, ids) && !PcOf(s, t).Idle?
    ensures Enabled(s, NextOf(s, t)) && NextOf(s, t).tid == t
    ensures Left(Apply(s, NextOf(s, t)), t) == Left(s, t) - 1
    ensures var r := PcOf(Apply(s, NextOf(s, t)), t); if NextOf(s, t).CasSucceeds? then r.Idle?
      else !r.Idle? && r.node == s.pcs[t].node
  {
    ChainInHeap(s.heap, s.head, ids);
  }

  /** Left alone, a thread finishes its push from wherever it is, in seven actions at most. */
  lemma {:induction false} PushAlone<E(!new)>(s: State<E>, ids: seq<Id>, t: Tid)
    returns (actions: seq<Action<E>>, s': State<E>)
    requires Inv(s, ids) && !PcOf(s, t).Idle?
    ensures |actions| <= 7 && forall a <- actions :: a.tid == t
    ensures Leads(s, ids, actions, s', [s.pcs[t].node] + ids) && PcOf(s', t).Idle?
    ensures |actions| == Left(s, t)
    decreases Left(s, t)
  {
    var a := NextOf(s, t);
    NextIsEnabled(s, ids, t);
    StepInv(s, ids, a);
    var r, more, all := Apply(s, a), Pushed(s, a, ids), [s.pcs[t].node] + ids;
    if a.CasSucceeds? {
      assert Leads(r, more, [], r, all);
      LeadsStep(s, ids, a, [], r, all);
      actions, s' := [a] + [], r;
    } else {
      var tail;
      tail, s' := PushAlone(r, more, t);
      LeadsStep(s, ids, a, tail, s', all);
      actions := [a] + tail;
    }
  }
}
