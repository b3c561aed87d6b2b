/**
 The back links of the lock-free list.

 `push_front` writes the back link of the head it loaded before it knows
 whether it will replace that head, so a link may be left pointing at another
 thread's node.  This module says exactly when a back link is right.
 */
module BackLinks {
  import opened Basics
  import opened LockFreeLists

  /** Which thread last exchanged each node's back link, and which published each node. */
  datatype History = History(backer: map<Id, Tid>, publisher: map<Id, Tid>)

  const NOTHING := History(map[], map[])

  ghost function Noted<E(!new)>(s: State<E>, a: Action<E>, h: History): History
    requires Enabled(s, a)
  {
    match a
    case ExchangePrev(t) =>
      if s.pcs[t].seen.Some? then h.(backer := h.backer[s.pcs[t].seen.value := t]) else h
    case CasSucceeds(t) => h.(publisher := h.publisher[s.pcs[t].node := t])
    case _ => h
  }

  /** What a run adds to the history. */
  ghost function Chronicle<E(!new)>(s: State<E>, actions: seq<Action<E>>, h: History): History
    decreases actions
  {
    if actions == [] || !Enabled(s, actions[0]) then h
    else Chronicle(Apply(s, actions[0]), actions[1..], Noted(s, actions[0], h))
  }

  /** No push is under way, and no back link dangles. */
  ghost predicate AtRest<E(!new)>(s: State<E>) {
    && (forall t :: t in s.pcs ==> s.pcs[t].Idle?)
    && Closed(s)
  }

  ghost predicate Closed<E(!new)>(s: State<E>) {
    forall i :: i in s.heap && s.heap[i].prev.Some? ==> s.heap[i].prev.value in s.heap
  }

  /** The thread has loaded the head and not yet published. */
  predicate Midway(pc: Pc) {
    pc.Loaded? || pc.BackLinked? || pc.Linked?
  }

  predicate HasBacked(pc: Pc) {
    (pc.BackLinked? || pc.Linked?) && pc.seen.Some?
  }

  // ---------------------------------------------------------------- invariant

  /** A thread past its exchange still has it standing unless another thread came after. */
  ghost predicate BackedSound<E(!new)>(s: State<E>, h: History) {
    forall t :: t in s.pcs && HasBacked(s.pcs[t]) ==>
      var x := s.pcs[t].seen.value;
      x in h.backer && x in s.heap && (h.backer[x] == t ==> s.heap[x].prev == Some(s.pcs[t].node))
  }

  /** A link to an unpublished node was written by the thread that made it. */
  ghost predicate PrivateLinks<E(!new)>(s: State<E>, h: History) {
    forall t, x :: t in s.pcs && !s.pcs[t].Idle? && x in s.heap && s.heap[x].prev == Some(s.pcs[t].node) ==>
      x in h.backer && h.backer[x] == t
  }

  /** The back link between two neighbours is right exactly if the same thread wrote it last and published. */
  ghost predicate Decided<E(!new)>(s: State<E>, h: History, n: Id, x: Id) {
    && n in h.publisher && x in h.backer && x in s.heap
    && (s.heap[x].prev == Some(n) <==> h.backer[x] == h.publisher[n])
  }

  ghost predicate AllDecided<E(!new)>(s: State<E>, ids: seq<Id>, h: History, base: nat) {
    && base <= |ids|
    && (forall i :: 0 <= i < |ids| - base ==> ids[i] in h.publisher)
    && (forall i :: 0 <= i < |ids| - base && i + 1 < |ids| ==> Decided(s, h, ids[i], ids[i + 1]))
  }

  /** A thread has published nothing since it loaded the head it works on. */
  ghost predicate NoneSince<E(!new)>(s: State<E>, ids: seq<Id>, h: History) {
    forall t, j :: t in s.pcs && Midway(s.pcs[t]) && 0 <= j < |ids| && s.pcs[t].seen == Some(ids[j]) ==>
      NoneBefore(h, ids, j, t)
  }

  ghost predicate NoneBefore(h: History, ids: seq<Id>, j: nat, t: Tid)
    requires j <= |ids|
  {
    forall i :: 0 <= i < j && ids[i] in h.publisher ==> h.publisher[ids[i]] != t
  }

  ghost predicate Recorded<E(!new)>(s: State<E>, ids: seq<Id>, h: History, base: nat) {
    match h
    case History(_, publisher) =>
      && Inv(s, ids) && Closed(s) && BackedSound(s, h) && PrivateLinks(s, h)
      && AllDecided(s, ids, h, base) && NoneSince(s, ids, h)
      && (forall i :: i in publisher ==> i in ids)
  }

  lemma StepClosed<E(!new)>(s: State<E>, ids: seq<Id>, a: Action<E>)
    requires Inv(s, ids) && Closed(s) && Enabled(s, a)
    ensures Closed(Apply(s, a))
  {
  }

  lemma StepBackedSound<E(!new)>(s: State<E>, ids: seq<Id>, h: History, a: Action<E>)
    requires Inv(s, ids) && BackedSound(s, h) && Enabled(s, a)
    ensures BackedSound(Apply(s, a), Noted(s, a, h))
  {
    ChainInHeap(s.heap, s.head, ids);
  }

  lemma StepPrivateLinks<E(!new)>(s: State<E>, ids: seq<Id>, h: History, a: Action<E>)
    requires Inv(s, ids) && Closed(s) && PrivateLinks(s, h) && Enabled(s, a)
    ensures PrivateLinks(Apply(s, a), Noted(s, a, h))
  {
    var s', g := Apply(s, a), Noted(s, a, h);
    forall t, x | t in s'.pcs && !s'.pcs[t].Idle? && x in s'.heap && s'.heap[x].prev == Some(s'.pcs[t].node)
      ensures x in g.backer && g.backer[x] == t
    {
      if !a.Create? && !(a.ExchangePrev? && s.pcs[a.tid].seen == Some(x)) {
        assert s.pcs[t].node == s'.pcs[t].node && s.heap[x].prev == s'.heap[x].prev;
      }
    }
  }

  lemma StepNoneSince<E(!new)>(s: State<E>, ids: seq<Id>, h: History, a: Action<E>)
    requires Inv(s, ids) && NoneSince(s, ids, h) && Enabled(s, a)
    ensures NoneSince(Apply(s, a), Pushed(s, a, ids), Noted(s, a, h))
  {
    if a.CasSucceeds? {
      CasNoneSince(s, ids, h, a);
    } else {
      OtherNoneSince(s, ids, h, a);
      assert Noted(s, a, h).publisher == h.publisher;
    }
  }

  lemma OtherNoneSince<E(!new)>(s: State<E>, ids: seq<Id>, h: History, a: Action<E>)
    requires Inv(s, ids) && NoneSince(s, ids, h) && Enabled(s, a) && !a.CasSucceeds?
    ensures NoneSince(Apply(s, a), ids, h)
  {
    var s' := Apply(s, a);
    forall t, j | t in s'.pcs && Midway(s'.pcs[t]) && 0 <= j < |ids| && s'.pcs[t].seen == Some(ids[j])
      ensures NoneBefore(h, ids, j, t)
    {
      if a == Load(t) {
        assert s.head == Some(ids[0]);
      } else {
        assert Midway(s.pcs[t]) && s.pcs[t].seen == Some(ids[j]);
      }
    }
  }

  lemma CasNoneSince<E(!new)>(s: State<E>, ids: seq<Id>, h: History, a: Action<E>)
    requires Inv(s, ids) && NoneSince(s, ids, h) && Enabled(s, a) && a.CasSucceeds?
    ensures NoneSince(Apply(s, a), Pushed(s, a, ids), Noted(s, a, h))
  {
    var s', more, g := Apply(s, a), Pushed(s, a, ids), Noted(s, a, h);
    forall t, j | t in s'.pcs && Midway(s'.pcs[t]) && 0 <= j < |more| && s'.pcs[t].seen == Some(more[j])
      ensures NoneBefore(g, more, j, t)
    {
      assert s'.pcs[t] == s.pcs[t] && t != a.tid;
      if j > 0 {
        assert NoneBefore(h, ids, j - 1, t);
      }
    }
  }

  lemma StepDecided<E(!new)>(s: State<E>, ids: seq<Id>, h: History, base: nat, a: Action<E>)
    requires Recorded(s, ids, h, base) && Enabled(s, a)
    ensures AllDecided(Apply(s, a), Pushed(s, a, ids), Noted(s, a, h), base)
  {
    ChainInHeap(s.heap, s.head, ids);
    if a.CasSucceeds? {
      CasDecided(s, ids, h, base, a);
    } else if a.ExchangePrev? {
      ExchangeDecided(s, ids, h, base, a);
    }
  }

  /** Publishing decides one more pair. */
  lemma CasDecided<E(!new)>(s: State<E>, ids: seq<Id>, h: History, base: nat, a: Action<E>)
    requires Recorded(s, ids, h, base) && Enabled(s, a) && a.CasSucceeds?
    ensures AllDecided(Apply(s, a), Pushed(s, a, ids), Noted(s, a, h), base)
  {
    var s', g, n := Apply(s, a), Noted(s, a, h), s.pcs[a.tid].node;
    if ids != [] {
      assert s.head == Some(ids[0]);
      assert Decided(s', g, n, ids[0]);
    }
    forall i | 0 <= i < |ids| - base && i + 1 < |ids| ensures Decided(s', g, ids[i], ids[i + 1]) {
      assert Decided(s, h, ids[i], ids[i + 1]);
    }
  }

  /** An exchange by a thread that lags behind spoils the link of a pair, and is noted. */
  lemma ExchangeDecided<E(!new)>(s: State<E>, ids: seq<Id>, h: History, base: nat, a: Action<E>)
    requires Recorded(s, ids, h, base) && Enabled(s, a) && a.ExchangePrev?
    ensures AllDecided(Apply(s, a), Pushed(s, a, ids), Noted(s, a, h), base)
  {
    var s', g, t := Apply(s, a), Noted(s, a, h), a.tid;
    forall i | 0 <= i < |ids| - base && i + 1 < |ids| ensures Decided(s', g, ids[i], ids[i + 1]) {
      assert Decided(s, h, ids[i], ids[i + 1]);
      if s.pcs[t].seen == Some(ids[i + 1]) {
        assert NoneBefore(h, ids, i + 1, t);
      }
    }
  }

  lemma StepRecorded<E(!new)>(s: State<E>, ids: seq<Id>, h: History, base: nat, a: Action<E>)
    requires Recorded(s, ids, h, base) && Enabled(s, a)
    ensures Recorded(Apply(s, a), Pushed(s, a, ids), Noted(s, a, h), base)
  {
    StepInv(s, ids, a);
    StepClosed(s, ids, a);
    StepBackedSound(s, ids, h, a);
    StepPrivateLinks(s, ids, h, a);
    StepNoneSince(s, ids, h, a);
    StepDecided(s, ids, h, base, a);
  }

  lemma {:induction false} RunRecorded<E(!new)>(
    s: State<E>, ids: seq<Id>, h: History, base: nat, actions: seq<Action<E>>, s': State<E>, ids': seq<Id>)
    requires Recorded(s, ids, h, base) && Leads(s, ids, actions, s', ids')
    ensures Recorded(s', ids', Chronicle(s, actions, h), base)
    decreases actions
  {
    if actions != [] {
      var a := actions[0];
      StepRecorded(s, ids, h, base, a);
      RunRecorded(Apply(s, a), Pushed(s, a, ids), Noted(s, a, h), base, actions[1..], s', ids');
    }
  }

  /**
   After any run from a state at rest, for every node `n` published during the
   run and the node `x` it was published over: `x` links back to `n` exactly if
   the thread that published `n` was the last to exchange the back link of `x`.
   */
  lemma BackLinkDecided<E(!new)>(
    s: State<E>, ids: seq<Id>, actions: seq<Action<E>>, s': State<E>, ids': seq<Id>, i: nat)
    requires Inv(s, ids) && AtRest(s) && Leads(s, ids, actions, s', ids')
    requires i < |ids'| - |ids| && i + 1 < |ids'|
    ensures Decided(s', Chronicle(s, actions, NOTHING), ids'[i], ids'[i + 1])
  {
    RunRecorded(s, ids, NOTHING, |ids|, actions, s', ids');
  }

  // ------------------------------------------------- pushes that do not overlap

  /** No thread loads the head while another is between its load and its publication. */
  ghost predicate Serial<E(!new)>(s: State<E>, actions: seq<Action<E>>)
    decreases actions
  {
    actions != [] ==>
    && Enabled(s, actions[0])
    && (actions[0].Load? ==> forall t :: t in s.pcs ==> !Midway(s.pcs[t]))
    && Serial(Apply(s, actions[0]), actions[1..])
  }

  /** Back links mirror the forward links among the nodes published since. */
  ghost predicate Mirrors<E(!new)>(s: State<E>, ids: seq<Id>, base: nat) {
    base <= |ids| && forall i :: 0 <= i < |ids| - base && i + 1 < |ids| ==> LinksBack(s, ids[i], ids[i + 1])
  }

  ghost predicate LinksBack<E(!new)>(s: State<E>, n: Id, x: Id) {
    x in s.heap && s.heap[x].prev == Some(n)
  }

  /** One push at a time is under way, over the current head. */
  ghost predicate OneAtATime<E(!new)>(s: State<E>) {
    && (forall t, u :: t in s.pcs && u in s.pcs && Midway(s.pcs[t]) && Midway(s.pcs[u]) ==> t == u)
    && (forall t :: t in s.pcs && Midway(s.pcs[t]) ==> s.pcs[t].seen == s.head)
    && (forall t :: t in s.pcs && HasBacked(s.pcs[t]) ==> LinksBack(s, s.pcs[t].node, s.pcs[t].seen.value))
  }

  lemma StepOneAtATime<E(!new)>(s: State<E>, ids: seq<Id>, a: Action<E>)
    requires Inv(s, ids) && OneAtATime(s) && Enabled(s, a)
    requires a.Load? ==> forall t :: t in s.pcs ==> !Midway(s.pcs[t])
    ensures OneAtATime(Apply(s, a))
  {
    ChainInHeap(s.heap, s.head, ids);
    assert ids == [] ==> s.head == None;
  }

  lemma StepMirrors<E(!new)>(s: State<E>, ids: seq<Id>, base: nat, a: Action<E>)
    requires Inv(s, ids) && OneAtATime(s) && Mirrors(s, ids, base) && Enabled(s, a)
    ensures Mirrors(Apply(s, a), Pushed(s, a, ids), base)
  {
    ChainInHeap(s.heap, s.head, ids);
    var s' := Apply(s, a);
    assert ids == [] ==> s.head == None;
    forall i | 0 <= i < |ids| - base && i + 1 < |ids| ensures LinksBack(s', ids[i], ids[i + 1]) {
      assert LinksBack(s, ids[i], ids[i + 1]) && ids[0] != ids[i + 1];
    }
  }

  lemma {:induction false} RunMirrors<E(!new)>(
    s: State<E>, ids: seq<Id>, base: nat, actions: seq<Action<E>>, s': State<E>, ids': seq<Id>)
    requires Inv(s, ids) && OneAtATime(s) && Mirrors(s, ids, base)
    requires Leads(s, ids, actions, s', ids') && Serial(s, actions)
    ensures Mirrors(s', ids', base)
    decreases actions
  {
    if actions != [] {
      var a := actions[0];
      StepInv(s, ids, a);
      StepOneAtATime(s, ids, a);
      StepMirrors(s, ids, base, a);
      RunMirrors(Apply(s, a), Pushed(s, a, ids), base, actions[1..], s', ids');
    }
  }

  /** Where pushes do not overlap, every back link among the nodes pushed mirrors the forward link. */
  lemma SerialMirrors<E(!new)>(s: State<E>, ids: seq<Id>, actions: seq<Action<E>>, s': State<E>, ids': seq<Id>)
    requires Inv(s, ids) && AtRest(s) && Leads(s, ids, actions, s', ids') && Serial(s, actions)
    ensures Mirrors(s', ids', |ids|)
  {
    RunMirrors(s, ids, |ids|, actions, s', ids');
  }

  /**
   Back links carry no promise.  Here thread 1 pushes node 1 over
   node 0 while thread 2, about to push node 2, has already redirected node
   0's back link; node 1 is published, yet node 0 does not link back to it.
   */
  lemma BackLinksUnreliable() returns (s: State<int>, actions: seq<Action<int>>, s': State<int>)
    ensures Inv(s, [0]) && Leads(s, [0], actions, s', [1, 0])
    ensures s'.head == Some(1) && 1 in s'.heap && s'.heap[1].next == Some(0)
    ensures 0 in s'.heap && s'.heap[0].prev == Some(2)
  {
    s := State(map[0 := Cell(7, None, None)], Some(0), map[]);
    assert Chain(s.heap, None, []);
    assert Chain(s.heap, Some(0), [0]);
    var a1 := Create(1, 1, 8);
    var s1 := Apply(s, a1);
    var s2 := Apply(s1, Load(1));
    var s3 := Apply(s2, ExchangePrev(1));
    var s4 := Apply(s3, ExchangeNext(1));
    var s5 := Apply(s4, Create(2, 2, 9));
    var s6 := Apply(s5, Load(2));
    var s7 := Apply(s6, ExchangePrev(2));
    s' := Apply(s7, CasSucceeds(1));
    assert Leads(s', [1, 0], [], s', [1, 0]);
    LeadsStep(s7, [0], CasSucceeds(1), [], s', [1, 0]);
    LeadsStep(s6, [0], ExchangePrev(2), [CasSucceeds(1)], s', [1, 0]);
    LeadsStep(s5, [0], Load(2), [ExchangePrev(2), CasSucceeds(1)], s', [1, 0]);
    var tail := [Load(2), ExchangePrev(2), CasSucceeds(1)];
    LeadsStep(s4, [0], Create(2, 2, 9), tail, s', [1, 0]);
    tail := [Create(2, 2, 9)] + tail;
    LeadsStep(s3, [0], ExchangeNext(1), tail, s', [1, 0]);
    tail := [ExchangeNext(1)] + tail;
    LeadsStep(s2, [0], ExchangePrev(1), tail, s', [1, 0]);
    tail := [ExchangePrev(1)] + tail;
    LeadsStep(s1, [0], Load(1), tail, s', [1, 0]);
    tail := [Load(1)] + tail;
    LeadsStep(s, [0], a1, tail, s', [1, 0]);
    actions := [a1] + tail;
  }
}
