/**
 What one thread may rely on, whatever the others do: it makes a new arena only
 when every listed one was taken, its `free` does not return before the block
 is freed, and what it gives up on exit is there for others.
 */
module PoolThreads {
  import opened Basics
  import opened Chunks
  import opened ArenaStates
  import opened Pools
  import opened PoolInvariant
  import opened PoolRuns

  // --------------------------------------------------------------- reserving

  /** The thread tries the arena and finds it reserved. */
  ghost predicate Refuses(p: Pool, act: Action, t: Tid, a: Aid)
    requires PoolInv(p) && Enabled(p, act)
  {
    act == TryReserve(t) && p.threads[t].pc.rest[0] == a && a in p.arenas && p.arenas[a].reserved
  }

  ghost predicate RefusedIn(p: Pool, acts: seq<Action>, t: Tid, a: Aid)
    requires PoolInv(p)
    decreases acts
  {
    acts != [] && Enabled(p, acts[0]) && (
      Refuses(p, acts[0], t, a) || (StepInv(p, acts[0]); RefusedIn(Apply(p, acts[0]), acts[1..], t, a)))
  }

  predicate StartsNoMore(acts: seq<Action>, t: Tid) {
    StartReserve(t) !in acts
  }

  lemma StepScansNoMore(p: Pool, act: Action, t: Tid)
    requires PoolInv(p) && Enabled(p, act) && !ThreadOf(p, t).pc.Scanning? && act != StartReserve(t)
    ensures !ThreadOf(Apply(p, act), t).pc.Scanning?
  {
    if act.t != t {
      if t in p.threads {
        OthersStay(p, act, t);
      } else {
        NewcomersStay(p, act, t);
      }
    } else {
      OwnScansNoMore(p, act);
    }
  }

  lemma NewcomersStay(p: Pool, act: Action, t: Tid)
    requires PoolInv(p) && Enabled(p, act) && t !in p.threads && act.t != t
    ensures t !in Apply(p, act).threads
  {
  }

  lemma OwnScansNoMore(p: Pool, act: Action)
    requires PoolInv(p) && Enabled(p, act) && !ThreadOf(p, act.t).pc.Scanning? && !act.StartReserve?
    ensures !ThreadOf(Apply(p, act), act.t).pc.Scanning?
  {
    if OfFreeing(act) {
      FreerScansNot(p, act);
    } else if !OfReserving(act) {
      AllocatorScansNot(p, act);
    }
  }

  lemma FreerScansNot(p: Pool, act: Action)
    requires PoolInv(p) && Enabled(p, act) && OfFreeing(act)
    ensures !ThreadOf(Apply(p, act), act.t).pc.Scanning?
  {
  }

  lemma AllocatorScansNot(p: Pool, act: Action)
    requires PoolInv(p) && Enabled(p, act) && !OfFreeing(act) && !OfReserving(act)
    ensures !ThreadOf(Apply(p, act), act.t).pc.Scanning?
  {
  }

  lemma {:induction false} ScansNoMore(p: Pool, t: Tid, had: set<int>, acts: seq<Action>, q: Pool, held: set<int>)
    requires PoolInv(p) && Leads(p, had, acts, q, held)
    requires !ThreadOf(p, t).pc.Scanning? && StartsNoMore(acts, t)
    ensures !ThreadOf(q, t).pc.Scanning?
    decreases acts
  {
    if acts != [] {
      StepInv(p, acts[0]);
      StepScansNoMore(p, acts[0], t);
      ScansNoMore(Apply(p, acts[0]), t, Held(p, acts[0], had), acts[1..], q, held);
    }
  }

  lemma TryReserveIs(p: Pool, t: Tid, rest: seq<Aid>)
    requires PoolInv(p) && Enabled(p, TryReserve(t)) && t in p.threads && p.threads[t].pc == Scanning(rest)
    ensures rest != [] && rest[0] in p.arenas
    ensures Apply(p, TryReserve(t)).threads[t] ==
      if p.arenas[rest[0]].reserved then Thread(None, Scanning(rest[1..])) else Thread(Some(rest[0]), Idle)
  {
    assert Fits(p.threads[t]);
  }

  lemma ScannerTries(p: Pool, act: Action, rest: seq<Aid>)
    requires PoolInv(p) && Enabled(p, act) && ThreadOf(p, act.t).pc == Scanning(rest)
    ensures act == TryReserve(act.t) || (act.CreateArena? && !ThreadOf(Apply(p, act), act.t).pc.Scanning?)
  {
    assert act.t in p.threads && Fits(p.threads[act.t]);
  }

  /** A scan that comes to the end of its snapshot was refused by every arena on it. */
  lemma {:induction false} ScanRefused(p: Pool, t: Tid, rest: seq<Aid>,
                                       had: set<int>, acts: seq<Action>, q: Pool, held: set<int>)
    requires PoolInv(p) && Leads(p, had, acts, q, held) && StartsNoMore(acts, t)
    requires t in p.threads && p.threads[t].pc == Scanning(rest) && ThreadOf(q, t).pc == Scanning([])
    ensures forall a <- rest :: RefusedIn(p, acts, t, a)
    decreases acts
  {
    if acts != [] {
      var act := acts[0];
      var r, more := Apply(p, act), Held(p, act, had);
      StepInv(p, act);
      if act.t != t {
        OthersStay(p, act, t);
        ScanRefused(r, t, rest, more, acts[1..], q, held);
      } else {
        ScannerTries(p, act, rest);
        if !ThreadOf(r, t).pc.Scanning? {
          ScansNoMore(r, t, more, acts[1..], q, held);
        } else {
          TryReserveIs(p, t, rest);
          ScanRefused(r, t, rest[1..], more, acts[1..], q, held);
        }
      }
    }
  }

  /**
   A thread is about to make an arena only when, since it loaded the list, it
   has tried every arena that was on it and found each of them reserved.
   */
  lemma CreatesWhenRefused(p: Pool, t: Tid, had: set<int>, acts: seq<Action>, q: Pool, held: set<int>)
    requires PoolInv(p) && Leads(p, had, acts, q, held)
    requires acts != [] && acts[0] == StartReserve(t) && StartsNoMore(acts[1..], t)
    requires ThreadOf(q, t).pc == Scanning([])
    ensures forall a <- p.list :: RefusedIn(p, acts, t, a)
  {
    var act := acts[0];
    StepInv(p, act);
    ScanRefused(Apply(p, act), t, p.list, Held(p, act, had), acts[1..], q, held);
  }

  // ----------------------------------------------------------------- freeing

  /** At some point of the interleaving an action of the thread ends the block's life. */
  ghost predicate EndedBy(p: Pool, acts: seq<Action>, t: Tid, ptr: int)
    requires PoolInv(p)
    decreases acts
  {
    acts != [] && Enabled(p, acts[0]) && (
      (acts[0].t == t && Ended(p, acts[0]) == Some(ptr))
      || (StepInv(p, acts[0]); EndedBy(Apply(p, acts[0]), acts[1..], t, ptr)))
  }

  lemma FreeGoesOnOrEnds(p: Pool, act: Action, ptr: int)
    requires PoolInv(p) && Enabled(p, act) && Freeing(ThreadOf(p, act.t)) == Some(ptr)
    ensures Ended(p, act) == Some(ptr) || Freeing(ThreadOf(Apply(p, act), act.t)) == Some(ptr)
  {
  }

  lemma {:induction false} FreeingEnds(p: Pool, t: Tid, ptr: int,
                                       had: set<int>, acts: seq<Action>, q: Pool, held: set<int>)
    requires PoolInv(p) && Leads(p, had, acts, q, held)
    requires Freeing(ThreadOf(p, t)) == Some(ptr) && Freeing(ThreadOf(q, t)) != Some(ptr)
    ensures EndedBy(p, acts, t, ptr)
    decreases acts
  {
    var act := acts[0];
    var r, more := Apply(p, act), Held(p, act, had);
    StepInv(p, act);
    if act.t != t {
      OthersStay(p, act, t);
      FreeingEnds(r, t, ptr, more, acts[1..], q, held);
    } else {
      FreeGoesOnOrEnds(p, act, ptr);
      if Ended(p, act) != Some(ptr) {
        FreeingEnds(r, t, ptr, more, acts[1..], q, held);
      }
    }
  }

  lemma FreeOwnStarts(p: Pool, t: Tid, ptr: int)
    requires PoolInv(p) && Enabled(p, FreeOwn(t, ptr))
    ensures Ended(p, FreeOwn(t, ptr)) == Some(ptr) || Freeing(ThreadOf(Apply(p, FreeOwn(t, ptr)), t)) == Some(ptr)
  {
  }

  /** A thread's `free` does not return before one of its actions has ended the block's life. */
  lemma FreeReturnsDone(p: Pool, t: Tid, ptr: int, had: set<int>, acts: seq<Action>, q: Pool, held: set<int>)
    requires PoolInv(p) && Leads(p, had, acts, q, held)
    requires acts != [] && acts[0] == FreeOwn(t, ptr) && Freeing(ThreadOf(q, t)) != Some(ptr)
    ensures EndedBy(p, acts, t, ptr)
  {
    var act := acts[0];
    StepInv(p, act);
    FreeOwnStarts(p, t, ptr);
    if Ended(p, act) != Some(ptr) {
      FreeingEnds(Apply(p, act), t, ptr, Held(p, act, had), acts[1..], q, held);
    }
  }

  // ----------------------------------------------------------------- exiting

  /**
   On exit a thread shrinks its arena to the chunks that have a block in use,
   or to one new chunk if there is none, and blocks in use stay in use.
   */
  lemma ExitShrinks(p: Pool, t: Tid, begin: int)
    requires PoolInv(p) && Enabled(p, ShrinkArena(t, begin))
    ensures t in p.threads && p.threads[t].arena.Some? && p.threads[t].arena.value in p.arenas
    ensures var a := p.threads[t].arena.value;
      var q, cs := Apply(p, ShrinkArena(t, begin)), p.arenas[a].st.chunks;
      && q.threads[t] == Thread(Some(a), Leaving) && a in q.arenas
      && Live(q.arenas[a].st.chunks) == Live(cs)
      && (Live(cs) != {} ==> forall c :: c in q.arenas[a].st.chunks <==> c in cs && c.Live() != {})
      && (Live(cs) == {} ==> q.arenas[a].st.chunks == [NewState(begin, p.arenas[a].st.blockSize)])
  {
    OwnIs(p, t);
    ShrinkKeepsLive(Own(p, t), begin);
  }

  /** Then it gives the arena up. */
  lemma ExitLeavesArena(p: Pool, t: Tid) returns (a: Aid)
    requires PoolInv(p) && Enabled(p, ReleaseArena(t))
    ensures t in p.threads && p.threads[t].arena == Some(a)
    ensures var r := Apply(p, ReleaseArena(t)); r.threads[t] == Thread(None, Idle) && a in r.arenas && !r.arenas[a].reserved
  {
    assert Fits(p.threads[t]);
    a := p.threads[t].arena.value;
  }

  /** The next thread that tries an arena nobody holds gets it. */
  lemma FreeArenaTaken(p: Pool, u: Tid, a: Aid)
    requires PoolInv(p) && Enabled(p, TryReserve(u)) && ThreadOf(p, u).pc.rest[0] == a
    requires !HasHolder(p, a)
    ensures ThreadOf(Apply(p, TryReserve(u)), u) == Thread(Some(a), Idle)
  {
    assert u in p.threads && a in p.list && a in p.arenas;
    TryReserveIs(p, u, p.threads[u].pc.rest);
  }

  // ----------------------------------------------------------- what stays put

  ghost predicate SameSize(p: Pool, q: Pool, a: Aid)
    requires a in p.arenas
  {
    a in q.arenas && q.arenas[a].st.blockSize == p.arenas[a].st.blockSize
  }

  lemma ReservingList(p: Pool, act: Action)
    requires PoolInv(p) && Enabled(p, act) && OfReserving(act) && !act.PushArena?
    ensures Apply(p, act).list == p.list
  {
  }

  lemma FreeingList(p: Pool, act: Action)
    requires PoolInv(p) && Enabled(p, act) && OfFreeing(act)
    ensures Apply(p, act).list == p.list
  {
  }

  lemma AllocatingList(p: Pool, act: Action)
    requires PoolInv(p) && Enabled(p, act) && !OfReserving(act) && !OfFreeing(act)
    ensures Apply(p, act).list == p.list
  {
  }

  lemma SetFlagSize(p: Pool, b: Aid, reserved: bool, t: Tid, th: Thread, a: Aid)
    requires a in p.arenas && b in p.arenas
    ensures SameSize(p, SetThread(SetFlag(p, b, reserved), t, th), a)
  {
  }

  lemma TryReserveSize(p: Pool, t: Tid, a: Aid)
    requires a in p.arenas && PoolInv(p) && Enabled(p, TryReserve(t))
    ensures SameSize(p, Apply(p, TryReserve(t)), a)
  {
    var b := ThreadOf(p, t).pc.rest[0];
    assert b in p.list && b in p.arenas;
    SetFlagSize(p, b, true, t, Thread(Some(b), Idle), a);
  }

  lemma ReleaseSize(p: Pool, t: Tid, a: Aid)
    requires a in p.arenas && PoolInv(p) && Enabled(p, ReleaseArena(t))
    ensures SameSize(p, Apply(p, ReleaseArena(t)), a)
  {
    var b := ExitLeavesArena(p, t);
    SetFlagSize(p, b, false, t, Thread(None, Idle), a);
  }

  lemma ReservingSize(p: Pool, act: Action, a: Aid)
    requires a in p.arenas && PoolInv(p) && Enabled(p, act) && OfReserving(act)
    ensures SameSize(p, Apply(p, act), a)
  {
    if act.TryReserve? {
      TryReserveSize(p, act.t, a);
    } else if act.ReleaseArena? {
      ReleaseSize(p, act.t, a);
    }
  }

  lemma SetArenaSize(p: Pool, b: Aid, st: ArenaState, t: Tid, th: Thread, a: Aid)
    requires a in p.arenas && b in p.arenas && st.blockSize == p.arenas[b].st.blockSize
    ensures SameSize(p, SetThread(SetArena(p, b, st), t, th), a)
  {
  }

  lemma FreeKeepsSize(st: ArenaState, ptr: int)
    requires Inv(st)
    ensures Free(st, ptr).0.blockSize == st.blockSize
  {
  }

  lemma AskedSize(p: Pool, t: Tid, b: Aid, ptr: int, otherwise: Pc, a: Aid)
    requires a in p.arenas && ArenasSound(p.arenas) && t in p.threads && b in p.arenas
    ensures SameSize(p, Asked(p, t, b, ptr, otherwise), a)
  {
    FreeKeepsSize(p.arenas[b].st, ptr);
  }

  lemma FreeingSize(p: Pool, act: Action, a: Aid)
    requires a in p.arenas && PoolInv(p) && Enabled(p, act) && OfFreeing(act)
    ensures SameSize(p, Apply(p, act), a)
  {
    match act
    case FreeOwn(t, ptr) =>
      FreeOwnAsks(p, t, ptr);
      AskedSize(p, t, p.threads[t].arena.value, ptr, Missed(ptr), a);
    case LoadList(t) =>
    case AskNext(t) =>
      AskNextAsks(p, t);
      var pc := p.threads[t].pc;
      AskedSize(p, t, pc.rest[0], pc.ptr, Missing(pc.ptr, pc.rest[1..]), a);
  }

  lemma AskNextAsks(p: Pool, t: Tid)
    requires PoolInv(p) && Enabled(p, AskNext(t))
    ensures t in p.threads && p.threads[t].pc.Missing? && p.threads[t].pc.rest != [] && p.threads[t].pc.rest[0] in p.arenas
    ensures var pc := p.threads[t].pc;
      Apply(p, AskNext(t)) == Asked(p, t, pc.rest[0], pc.ptr, Missing(pc.ptr, pc.rest[1..]))
  {
    var b := AskNextReaches(p, t, p.threads[t].pc.ptr, p.threads[t].pc.rest);
  }

  lemma TryChunkSize(p: Pool, t: Tid, k: nat, next: nat, a: Aid)
    requires a in p.arenas && PoolInv(p) && t in p.threads && p.threads[t].arena.Some? && k < |Own(p, t).chunks|
    ensures SameSize(p, TryChunk(p, t, k, next), a)
  {
    var st, b := Own(p, t), p.threads[t].arena.value;
    OwnIs(p, t);
    if st.chunks[k].free != [] {
      SetArenaSize(p, b, AllocateIn(st, k), t, p.threads[t].(pc := Idle), a);
    }
  }

  lemma AllocatingSize(p: Pool, act: Action, a: Aid)
    requires a in p.arenas && PoolInv(p) && Enabled(p, act) && !OfReserving(act) && !OfFreeing(act)
    ensures SameSize(p, Apply(p, act), a)
  {
    match act
    case MallocCurrent(t) => CurrentSize(p, t, Tried(p, act), a);
    case MallocNext(t) => NextSize(p, t, Tried(p, act), a);
    case MallocExtend(t, begin) => ExtendSize(p, t, begin, a);
    case ShrinkArena(t, begin) => ShrinkSize(p, t, begin, a);
  }

  lemma CurrentSize(p: Pool, t: Tid, k: nat, a: Aid)
    requires a in p.arenas && PoolInv(p) && Enabled(p, MallocCurrent(t)) && k == Tried(p, MallocCurrent(t))
    ensures SameSize(p, Apply(p, MallocCurrent(t)), a)
  {
    CurrentTries(p, t, k);
    TryChunkSize(p, t, k, 0, a);
  }

  lemma NextSize(p: Pool, t: Tid, k: nat, a: Aid)
    requires a in p.arenas && PoolInv(p) && Enabled(p, MallocNext(t)) && k == Tried(p, MallocNext(t))
    ensures SameSize(p, Apply(p, MallocNext(t)), a)
  {
    var next := k + 1;
    NextIs(p, t, k);
    NextTries(p, t, k, next);
    TryChunkSize(p, t, k, next, a);
  }

  lemma ExtendSize(p: Pool, t: Tid, begin: int, a: Aid)
    requires a in p.arenas && PoolInv(p) && Enabled(p, MallocExtend(t, begin))
    ensures SameSize(p, Apply(p, MallocExtend(t, begin)), a)
  {
    ExtendApplies(p, t, begin);
    var b := p.threads[t].arena.value;
    SetArenaSize(p, b, Extend(p.arenas[b].st, begin), t, p.threads[t].(pc := Idle), a);
  }

  lemma ShrinkSize(p: Pool, t: Tid, begin: int, a: Aid)
    requires a in p.arenas && PoolInv(p) && Enabled(p, ShrinkArena(t, begin))
    ensures SameSize(p, Apply(p, ShrinkArena(t, begin)), a)
  {
    var b := p.threads[t].arena.value;
    SetArenaSize(p, b, Shrink(p.arenas[b].st, begin), t, p.threads[t].(pc := Leaving), a);
  }

  lemma StepList(p: Pool, act: Action)
    requires PoolInv(p) && Enabled(p, act)
    ensures var l := Apply(p, act).list; l == p.list || (|l| == |p.list| + 1 && l[1..] == p.list)
  {
    if act.PushArena? {
      PushList(p, act.t);
    } else if OfReserving(act) {
      ReservingList(p, act);
    } else if OfFreeing(act) {
      FreeingList(p, act);
    } else {
      AllocatingList(p, act);
    }
  }

  lemma PushList(p: Pool, t: Tid)
    requires PoolInv(p) && Enabled(p, PushArena(t))
    ensures var l := Apply(p, PushArena(t)).list; |l| == |p.list| + 1 && l[1..] == p.list
  {
  }

  lemma StepSize(p: Pool, act: Action, a: Aid)
    requires a in p.arenas && PoolInv(p) && Enabled(p, act)
    ensures SameSize(p, Apply(p, act), a)
  {
    if OfReserving(act) {
      ReservingSize(p, act, a);
    } else if OfFreeing(act) {
      FreeingSize(p, act, a);
    } else {
      AllocatingSize(p, act, a);
    }
  }

  /** The list changes only at its front: over any run, the arenas listed before come last, in the order they had. */
  lemma {:induction false} ListGrows(p: Pool, had: set<int>, acts: seq<Action>, q: Pool, held: set<int>)
    requires PoolInv(p) && Leads(p, had, acts, q, held)
    ensures |p.list| <= |q.list| && q.list[|q.list| - |p.list|..] == p.list
    decreases acts
  {
    if acts != [] {
      var r := Apply(p, acts[0]);
      StepInv(p, acts[0]);
      StepList(p, acts[0]);
      ListGrows(r, Held(p, acts[0], had), acts[1..], q, held);
      assert q.list[|q.list| - |p.list|..] == q.list[|q.list| - |r.list|..][|r.list| - |p.list|..];
    }
  }

  lemma {:induction false} SizesStay(p: Pool, a: Aid, had: set<int>, acts: seq<Action>, q: Pool, held: set<int>)
    requires a in p.arenas && PoolInv(p) && Leads(p, had, acts, q, held)
    ensures SameSize(p, q, a)
    decreases acts
  {
    if acts != [] {
      StepInv(p, acts[0]);
      StepSize(p, acts[0], a);
      SizesStay(Apply(p, acts[0]), a, Held(p, acts[0], had), acts[1..], q, held);
    }
  }

  /** An arena made for a block size has it ever after. */
  lemma CreatedSize(p: Pool, t: Tid, a: Aid, size: nat, begin: int,
                    had: set<int>, acts: seq<Action>, q: Pool, held: set<int>)
    requires PoolInv(p) && Leads(p, had, acts, q, held) && acts != [] && acts[0] == CreateArena(t, a, size, begin)
    ensures a in q.arenas && q.arenas[a].st.blockSize == size
  {
    var r := Apply(p, acts[0]);
    StepInv(p, acts[0]);
    assert a in r.arenas && r.arenas[a].st == NewArena(size, begin);
    SizesStay(r, a, Held(p, acts[0], had), acts[1..], q, held);
  }
}
