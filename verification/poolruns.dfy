/**
 What the actions of a pool mean for the program: which blocks are in use after
 any interleaving, who holds which arena, and that a block freed by a thread it
 was not given to does get freed.
 */
module PoolRuns {
  import opened Basics
  import opened Chunks
  import opened ArenaStates
  import opened Pools
  import opened PoolInvariant

  // ------------------------------------------- what actions do to live blocks

  /** A block is in use in one arena at most. */
  lemma OneArena(p: Pool, a: Aid, b: Aid, x: int)
    requires ArenasSound(p.arenas) && a in p.arenas && b in p.arenas
    requires x in Live(p.arenas[a].st.chunks) && x in Live(p.arenas[b].st.chunks)
    ensures a == b
  {
    if a != b {
      ForeignBlock(p.arenas[a].st, p.arenas[b].st, x);
    }
  }

  ghost predicate AliveElsewhere(p: Pool, a: Aid, x: int) {
    exists b :: b in p.arenas && b != a && x in Live(p.arenas[b].st.chunks)
  }

  lemma ElsewhereIs(p: Pool, a: Aid, x: int)
    requires ArenasSound(p.arenas) && a in p.arenas
    ensures AliveElsewhere(p, a, x) <==> Alive(p, x) && x !in Live(p.arenas[a].st.chunks)
  {
    if AliveElsewhere(p, a, x) && x in Live(p.arenas[a].st.chunks) {
      var b :| b in p.arenas && b != a && x in Live(p.arenas[b].st.chunks);
      OneArena(p, a, b, x);
    }
  }

  /** One arena's blocks change; the others' stay. */
  lemma AliveAfter(p: Pool, a: Aid, st: ArenaState, t: Tid, th: Thread, x: int)
    requires ArenasSound(p.arenas) && a in p.arenas
    ensures var q := SetThread(SetArena(p, a, st), t, th);
      Alive(q, x) <==> x in Live(st.chunks) || (x !in Live(p.arenas[a].st.chunks) && Alive(p, x))
  {
    ElsewhereIs(p, a, x);
    AliveSplits(p, a, st, t, th, x);
  }

  lemma AliveSplits(p: Pool, a: Aid, st: ArenaState, t: Tid, th: Thread, x: int)
    requires a in p.arenas
    ensures var q := SetThread(SetArena(p, a, st), t, th);
      Alive(q, x) <==> x in Live(st.chunks) || AliveElsewhere(p, a, x)
  {
    var q := SetThread(SetArena(p, a, st), t, th);
    if x in Live(st.chunks) {
      assert q.arenas[a].st == st;
    } else if AliveElsewhere(p, a, x) {
      var b :| b in p.arenas && b != a && x in Live(p.arenas[b].st.chunks);
      assert q.arenas[b].st == p.arenas[b].st;
    }
  }

  /** The arena with the changed flag or place has the same blocks. */
  lemma AliveSame(p: Pool, q: Pool, x: int)
    requires q.arenas.Keys == p.arenas.Keys
    requires forall a :: a in p.arenas ==> q.arenas[a].st == p.arenas[a].st
    ensures Alive(q, x) <==> Alive(p, x)
  {
    if Alive(p, x) {
      var a :| a in p.arenas && x in Live(p.arenas[a].st.chunks);
      assert x in Live(q.arenas[a].st.chunks);
    }
  }

  /** A block placed clear of an arena is not one of its blocks. */
  lemma ClearNotLive(st: ArenaState, bs: nat, begin: int)
    requires Inv(st) && Clear(bs, st.chunks, begin)
    ensures begin !in Live(st.chunks)
  {
    if begin in Live(st.chunks) {
      var k: nat :| k < |st.chunks| && begin in st.chunks[k].Live();
      LiveInOne(st.blockSize, st.chunks, k, begin);
    }
  }

  /** What an action does to one block: handed out, ended, or left as it is. */
  ghost predicate Moves(before: bool, after: bool, handed: bool, ended: bool) {
    (after <==> handed || (before && !ended)) && (handed ==> !before) && (ended ==> before)
  }

  lemma TryChunkMoves(p: Pool, t: Tid, k: nat, next: nat, x: int)
    requires PoolInv(p) && t in p.threads && p.threads[t].arena.Some? && k < |Own(p, t).chunks|
    ensures var st := Own(p, t);
      Moves(Alive(p, x), Alive(TryChunk(p, t, k, next), x), st.chunks[k].free != [] && BlockIn(st, k) == x, false)
  {
    var st, a := Own(p, t), p.threads[t].arena.value;
    if st.chunks[k].free == [] {
      AliveSame(p, TryChunk(p, t, k, next), x);
    } else {
      AllocateInAdds(st, k);
      AliveAfter(p, a, AllocateIn(st, k), t, p.threads[t].(pc := Idle), x);
      if x == BlockIn(st, k) && Alive(p, x) {
        BlockInOwn(p, a, k);
      }
    }
  }

  /** A free block of one arena is no other arena's live block. */
  lemma FreeNotLive(st: ArenaState, k: nat, z: ArenaState)
    requires Inv(st) && Inv(z) && Apart(st, z)
    requires k < |st.chunks| && st.chunks[k].free != []
    ensures BlockIn(st, k) !in Live(z.chunks)
  {
    var x := BlockIn(st, k);
    IndexOfAddr(st.chunks[k], st.chunks[k].free[0]);
    if x in Live(z.chunks) {
      var j: nat :| j < |z.chunks| && x in z.chunks[j].Live();
      LiveInOne(z.blockSize, z.chunks, j, x);
    }
  }

  lemma BlockInOwn(p: Pool, a: Aid, k: nat)
    requires ArenasSound(p.arenas) && a in p.arenas
    requires k < |p.arenas[a].st.chunks| && p.arenas[a].st.chunks[k].free != []
    ensures !Alive(p, BlockIn(p.arenas[a].st, k))
  {
    var st := p.arenas[a].st;
    assert BlockIn(st, k) !in Live(st.chunks) by {
      AllocateInAdds(st, k);
    }
    forall b | b in p.arenas ensures BlockIn(st, k) !in Live(p.arenas[b].st.chunks) {
      if b != a {
        FreeNotLive(st, k, p.arenas[b].st);
      }
    }
  }

  lemma AskedMoves(p: Pool, t: Tid, a: Aid, ptr: int, otherwise: Pc, x: int)
    requires ArenasSound(p.arenas) && t in p.threads && a in p.arenas && Alive(p, ptr)
    ensures Moves(Alive(p, x), Alive(Asked(p, t, a, ptr, otherwise), x), false, Free(p.arenas[a].st, ptr).1 && ptr == x)
  {
    var b :| b in p.arenas && ptr in Live(p.arenas[b].st.chunks);
    if a == b {
      AskedOwnerMoves(p, t, a, ptr, otherwise, x);
    } else {
      AskedOther(p, t, a, b, ptr, otherwise);
      AliveSame(p, Asked(p, t, a, ptr, otherwise), x);
    }
  }

  lemma AskedOwnerMoves(p: Pool, t: Tid, a: Aid, ptr: int, otherwise: Pc, x: int)
    requires ArenasSound(p.arenas) && t in p.threads && a in p.arenas && ptr in Live(p.arenas[a].st.chunks)
    ensures Free(p.arenas[a].st, ptr).1
    ensures Alive(Asked(p, t, a, ptr, otherwise), x) <==> Alive(p, x) && x != ptr
  {
    var st := Free(p.arenas[a].st, ptr).0;
    FreeRemovesOne(p.arenas[a].st, ptr);
    AliveAfter(p, a, st, t, p.threads[t].(pc := Idle), x);
    if x == ptr {
      assert !(x in Live(st.chunks));
    } else if x in Live(p.arenas[a].st.chunks) {
      assert Alive(p, x);
    }
  }

  /** A place clear of all arenas is no block in use. */
  lemma ClearNotAlive(p: Pool, bs: nat, begin: int)
    requires ArenasSound(p.arenas) && ClearOfAll(p, bs, begin)
    ensures !Alive(p, begin)
  {
    forall b | b in p.arenas ensures begin !in Live(p.arenas[b].st.chunks) {
      ClearNotLive(p.arenas[b].st, bs, begin);
    }
  }

  lemma ExtendApplies(p: Pool, t: Tid, begin: int)
    requires PoolInv(p) && Enabled(p, MallocExtend(t, begin))
    ensures t in p.threads && p.threads[t].arena.Some? && p.threads[t].arena.value in p.arenas
    ensures Apply(p, MallocExtend(t, begin)) ==
      SetThread(SetArena(p, p.threads[t].arena.value, Extend(Own(p, t), begin)), t, p.threads[t].(pc := Idle))
  {
  }

  lemma AliveExtended(p: Pool, a: Aid, begin: int, t: Tid, th: Thread, x: int)
    requires ArenasSound(p.arenas) && a in p.arenas && ClearOfAll(p, p.arenas[a].st.blockSize, begin)
    ensures !Alive(p, begin)
    ensures Alive(SetThread(SetArena(p, a, Extend(p.arenas[a].st, begin)), t, th), x) <==> begin == x || Alive(p, x)
  {
    var st := p.arenas[a].st;
    ClearNotAlive(p, st.blockSize, begin);
    ExtendAdds(st, begin);
    AliveAfter(p, a, Extend(st, begin), t, th, x);
    if x in Live(st.chunks) {
      assert Alive(p, x);
    }
  }

  lemma ExtendMoves(p: Pool, t: Tid, begin: int, x: int)
    requires PoolInv(p) && Enabled(p, MallocExtend(t, begin))
    ensures Moves(Alive(p, x), Alive(Apply(p, MallocExtend(t, begin)), x), begin == x, false)
  {
    ExtendApplies(p, t, begin);
    AliveExtended(p, p.threads[t].arena.value, begin, t, p.threads[t].(pc := Idle), x);
  }

  lemma ShrinkMoves(p: Pool, t: Tid, begin: int, x: int)
    requires PoolInv(p) && Enabled(p, ShrinkArena(t, begin))
    ensures Alive(Apply(p, ShrinkArena(t, begin)), x) <==> Alive(p, x)
  {
    var st, a := Own(p, t), p.threads[t].arena.value;
    ShrinkKeepsLive(st, begin);
    AliveAfter(p, a, Shrink(st, begin), t, p.threads[t].(pc := Leaving), x);
  }

  lemma AliveCreated(p: Pool, a: Aid, created: PoolArena, t: Tid, th: Thread, x: int)
    requires a !in p.arenas && Live(created.st.chunks) == {}
    ensures Alive(SetThread(p.(arenas := p.arenas[a := created]), t, th), x) <==> Alive(p, x)
  {
    var q := SetThread(p.(arenas := p.arenas[a := created]), t, th);
    if Alive(p, x) {
      var b :| b in p.arenas && x in Live(p.arenas[b].st.chunks);
      assert q.arenas[b] == p.arenas[b];
    }
  }

  lemma CreateMoves(p: Pool, t: Tid, a: Aid, bs: nat, begin: int, x: int)
    requires PoolInv(p) && Enabled(p, CreateArena(t, a, bs, begin))
    ensures Alive(Apply(p, CreateArena(t, a, bs, begin)), x) <==> Alive(p, x)
  {
    NewArenaInv(bs, begin);
    AliveCreated(p, a, PoolArena(true, NewArena(bs, begin)), t, Thread(Some(a), Pushing), x);
  }

  lemma FreeingMoves(p: Pool, act: Action, x: int)
    requires PoolInv(p) && Enabled(p, act) && OfFreeing(act)
    ensures Moves(Alive(p, x), Alive(Apply(p, act), x), false, Ended(p, act) == Some(x))
  {
    var t := act.t;
    var th := ThreadOf(p, t);
    match act
    case FreeOwn(_, ptr) =>
      AskedMoves(p, t, th.arena.value, ptr, Missed(ptr), x);
      assert Apply(p, act) == Asked(p, t, th.arena.value, ptr, Missed(ptr));
    case LoadList(_) => AliveSame(p, Apply(p, act), x);
    case AskNext(_) =>
      var rest, ptr := th.pc.rest, th.pc.ptr;
      var b := BeingFreed(p, t, ptr);
      AskedMoves(p, t, rest[0], ptr, Missing(ptr, rest[1..]), x);
      assert Apply(p, act) == Asked(p, t, rest[0], ptr, Missing(ptr, rest[1..]));
  }

  lemma AllocatingMoves(p: Pool, act: Action, x: int)
    requires PoolInv(p) && Enabled(p, act) && (act.MallocCurrent? || act.MallocNext?)
    ensures Moves(Alive(p, x), Alive(Apply(p, act), x), Handed(p, act) == Some(x), false)
  {
    match act
    case MallocCurrent(t) => TryChunkMoves(p, t, Tried(p, act), 0, x);
    case MallocNext(t) => TryChunkMoves(p, t, Tried(p, act), Tried(p, act) + 1, x);
    case _ =>
  }

  lemma FlagMoves(p: Pool, a: Aid, reserved: bool, t: Tid, th: Thread, x: int)
    requires a in p.arenas
    ensures Alive(SetThread(SetFlag(p, a, reserved), t, th), x) <==> Alive(p, x)
  {
    AliveSame(p, SetThread(SetFlag(p, a, reserved), t, th), x);
  }

  lemma TryReserveMoves(p: Pool, t: Tid, x: int)
    requires PoolInv(p) && Enabled(p, TryReserve(t))
    ensures Alive(Apply(p, TryReserve(t)), x) <==> Alive(p, x)
  {
    var a := ThreadOf(p, t).pc.rest[0];
    assert a in p.arenas;
    if p.arenas[a].reserved {
      AliveSame(p, Apply(p, TryReserve(t)), x);
    } else {
      FlagMoves(p, a, true, t, Thread(Some(a), Idle), x);
    }
  }

  lemma ReleaseMoves(p: Pool, t: Tid, x: int)
    requires PoolInv(p) && Enabled(p, ReleaseArena(t))
    ensures Alive(Apply(p, ReleaseArena(t)), x) <==> Alive(p, x)
  {
    FlagMoves(p, ThreadOf(p, t).arena.value, false, t, Thread(None, Idle), x);
  }

  lemma ReservingMoves(p: Pool, act: Action, x: int)
    requires PoolInv(p) && Enabled(p, act) && OfReserving(act)
    ensures Alive(Apply(p, act), x) <==> Alive(p, x)
  {
    if act.CreateArena? {
      CreateMoves(p, act.t, act.a, act.blockSize, act.begin, x);
    } else if act.TryReserve? {
      TryReserveMoves(p, act.t, x);
    } else if act.ReleaseArena? {
      ReleaseMoves(p, act.t, x);
    } else {
      assert Apply(p, act).arenas == p.arenas;
      AliveSame(p, Apply(p, act), x);
    }
  }

  /**
   An action hands out only a block nobody holds, ends only a block that was
   in use, and leaves every other block of every arena as it was.
   */
  lemma StepMoves(p: Pool, act: Action, x: int)
    requires PoolInv(p) && Enabled(p, act)
    ensures Moves(Alive(p, x), Alive(Apply(p, act), x), Handed(p, act) == Some(x), Ended(p, act) == Some(x))
  {
    if OfFreeing(act) {
      FreeingMoves(p, act, x);
    } else if act.MallocCurrent? || act.MallocNext? {
      AllocatingMoves(p, act, x);
    } else if act.MallocExtend? {
      ExtendMoves(p, act.t, act.begin, x);
    } else if act.ShrinkArena? {
      ShrinkMoves(p, act.t, act.begin, x);
    } else {
      ReservingMoves(p, act, x);
    }
  }

  // --------------------------------------------------------------- whole runs

  /** What the program holds after an action, by its own account. */
  ghost function Held(p: Pool, act: Action, held: set<int>): set<int>
    requires PoolInv(p) && Enabled(p, act)
  {
    held - (if Ended(p, act).Some? then {Ended(p, act).value} else {})
         + (if Handed(p, act).Some? then {Handed(p, act).value} else {})
  }

  /** The interleaving `acts` leads from `p` to `q`, and the program's holdings from `had` to `held`. */
  ghost predicate Leads(p: Pool, had: set<int>, acts: seq<Action>, q: Pool, held: set<int>)
    requires PoolInv(p)
    decreases acts
  {
    if acts == [] then p == q && had == held
    else if Enabled(p, acts[0]) then
      StepInv(p, acts[0]);
      Leads(Apply(p, acts[0]), Held(p, acts[0], had), acts[1..], q, held)
    else false
  }

  ghost predicate Accounted(p: Pool, held: set<int>) {
    forall x :: x in held <==> Alive(p, x)
  }

  /** Blocks in use, of one arena or of two, do not overlap. */
  ghost predicate NoOverlap(p: Pool) {
    forall a, b :: a in p.arenas && b in p.arenas ==> BlocksClear(p.arenas[a].st, p.arenas[b].st)
  }

  ghost predicate BlocksClear(s: ArenaState, z: ArenaState) {
    forall x, y :: x in Live(s.chunks) && y in Live(z.chunks) && x != y ==>
      x + s.blockSize <= y || y + z.blockSize <= x
  }

  /** The free counts of every arena account for its blocks in use. */
  ghost predicate Counted(p: Pool) {
    forall a :: a in p.arenas ==> Used(p.arenas[a].st.chunks) == |Live(p.arenas[a].st.chunks)|
  }

  lemma OneArenaClear(s: ArenaState)
    requires Inv(s)
    ensures BlocksClear(s, s)
  {
    forall x, y | x in Live(s.chunks) && y in Live(s.chunks) && x != y
      ensures x + s.blockSize <= y || y + s.blockSize <= x
    {
      LiveBlocksApart(s.blockSize, s.chunks, x, y);
    }
  }

  lemma TwoArenasClear(s: ArenaState, z: ArenaState)
    requires Inv(s) && Inv(z) && Apart(s, z)
    ensures BlocksClear(s, z)
  {
    forall x, y | x in Live(s.chunks) && y in Live(z.chunks)
      ensures x + s.blockSize <= y || y + z.blockSize <= x
    {
      var j: nat :| j < |s.chunks| && x in s.chunks[j].Live();
      var k: nat :| k < |z.chunks| && y in z.chunks[k].Live();
      LiveInOne(s.blockSize, s.chunks, j, x);
      LiveInOne(z.blockSize, z.chunks, k, y);
    }
  }

  lemma ArenasClear(p: Pool)
    requires ArenasSound(p.arenas)
    ensures NoOverlap(p) && Counted(p)
  {
    forall a, b | a in p.arenas && b in p.arenas ensures BlocksClear(p.arenas[a].st, p.arenas[b].st) {
      if a == b {
        OneArenaClear(p.arenas[a].st);
      } else {
        TwoArenasClear(p.arenas[a].st, p.arenas[b].st);
      }
    }
    forall a | a in p.arenas ensures Used(p.arenas[a].st.chunks) == |Live(p.arenas[a].st.chunks)| {
      LiveUsed(p.arenas[a].st.blockSize, p.arenas[a].st.chunks);
    }
  }

  /**
   In every interleaving of any threads, the live blocks stay exactly those the
   program holds, no two of them overlap, and every arena's counts agree.
   */
  lemma {:induction false} RunSound(p: Pool, had: set<int>, acts: seq<Action>, q: Pool, held: set<int>)
    requires PoolInv(p) && Accounted(p, had) && Leads(p, had, acts, q, held)
    ensures PoolInv(q) && Accounted(q, held)
    ensures NoOverlap(q) && Counted(q)
    decreases acts
  {
    if acts == [] {
      ArenasClear(q);
    } else {
      var r, more := Apply(p, acts[0]), Held(p, acts[0], had);
      StepInv(p, acts[0]);
      forall x ensures x in more <==> Alive(r, x) {
        StepMoves(p, acts[0], x);
      }
      RunSound(r, more, acts[1..], q, held);
    }
  }

  const EMPTY := Pool(map[], [], map[])

  lemma EmptyInv()
    ensures PoolInv(EMPTY) && Accounted(EMPTY, {})
  {
  }

  /**
   From an empty pool, whatever the interleaving: no two threads hold one
   arena, the flagged arenas are exactly the held ones, so one that its thread
   gave up on exit is free to be reserved, and every arena is on the list or
   about to be pushed by the one thread that made it.
   */
  lemma ReservationExclusive(acts: seq<Action>, q: Pool, held: set<int>)
    requires PoolInv(EMPTY) && Leads(EMPTY, {}, acts, q, held)
    ensures forall t, u :: t in q.threads && u in q.threads && t != u && q.threads[t].arena.Some? ==>
      q.threads[t].arena != q.threads[u].arena
    ensures forall t :: t in q.threads && q.threads[t].arena.Some? ==> q.threads[t].arena.value in q.arenas
    ensures forall a :: a in q.arenas ==>
      (q.arenas[a].reserved <==> exists t :: t in q.threads && q.threads[t].arena == Some(a))
    ensures forall a :: a in q.arenas ==> (a in q.list <==> !BeingPushed(q, a))
  {
    EmptyInv();
    RunSound(EMPTY, {}, acts, q, held);
    forall a | a in q.arenas
      ensures q.arenas[a].reserved <==> exists t :: t in q.threads && q.threads[t].arena == Some(a)
    {
      assert q.arenas[a].reserved ==> HasHolder(q, a);
    }
  }

  /** How often a thread asks an arena during an interleaving. */
  function Asks(acts: seq<Action>, t: Tid): nat {
    if acts == [] then 0 else (if acts[0] == AskNext(t) then 1 else 0) + Asks(acts[1..], t)
  }

  /** At some point of the interleaving the thread's question ends the block's life. */
  ghost predicate EndsIn(p: Pool, acts: seq<Action>, t: Tid, ptr: int)
    requires PoolInv(p)
    decreases acts
  {
    acts != [] && Enabled(p, acts[0]) && (
      (acts[0] == AskNext(t) && Ended(p, acts[0]) == Some(ptr))
      || (StepInv(p, acts[0]); EndsIn(Apply(p, acts[0]), acts[1..], t, ptr)))
  }

  /** A thread in the middle of asking does nothing else. */
  lemma OnlyAsks(p: Pool, act: Action, t: Tid)
    requires PoolInv(p) && Enabled(p, act) && t in p.threads && p.threads[t].pc.Missing? && act.t == t
    ensures act == AskNext(t)
  {
  }

  lemma ReservingStays(p: Pool, act: Action, t: Tid)
    requires PoolInv(p) && Enabled(p, act) && t in p.threads && act.t != t && OfReserving(act)
    ensures t in Apply(p, act).threads && Apply(p, act).threads[t] == p.threads[t]
  {
  }

  lemma FreeingStays(p: Pool, act: Action, t: Tid)
    requires PoolInv(p) && Enabled(p, act) && t in p.threads && act.t != t && OfFreeing(act)
    ensures t in Apply(p, act).threads && Apply(p, act).threads[t] == p.threads[t]
  {
  }

  lemma AllocatingStays(p: Pool, act: Action, t: Tid)
    requires PoolInv(p) && Enabled(p, act) && t in p.threads && act.t != t && !OfReserving(act) && !OfFreeing(act)
    ensures t in Apply(p, act).threads && Apply(p, act).threads[t] == p.threads[t]
  {
  }

  /** An action moves only the thread that takes it. */
  lemma OthersStay(p: Pool, act: Action, t: Tid)
    requires PoolInv(p) && Enabled(p, act) && t in p.threads && act.t != t
    ensures t in Apply(p, act).threads && Apply(p, act).threads[t] == p.threads[t]
  {
    if OfReserving(act) {
      ReservingStays(p, act, t);
    } else if OfFreeing(act) {
      FreeingStays(p, act, t);
    } else {
      AllocatingStays(p, act, t);
    }
  }

  /**
   A thread that asks the arenas of its snapshot for a block another thread
   was given frees it before the snapshot runs out, whatever the others do
   meanwhile: threads may exit, shrink and publish arenas.
   */
  lemma {:induction false} MissFreeReaches(p: Pool, t: Tid, ptr: int, rest: seq<Aid>,
                                           had: set<int>, acts: seq<Action>, q: Pool, held: set<int>)
    requires PoolInv(p) && t in p.threads && p.threads[t].pc == Missing(ptr, rest) && Leads(p, had, acts, q, held)
    requires Asks(acts, t) >= |rest|
    ensures EndsIn(p, acts, t, ptr)
    decreases acts
  {
    var act := acts[0];
    var r, more := Apply(p, act), Held(p, act, had);
    StepInv(p, act);
    if act == AskNext(t) {
      var b := AskNextReaches(p, t, ptr, rest);
      if rest[0] != b {
        assert r == Asked(p, t, rest[0], ptr, Missing(ptr, rest[1..]));
        MissFreeReaches(r, t, ptr, rest[1..], more, acts[1..], q, held);
      }
    } else {
      if act.t == t {
        OnlyAsks(p, act, t);
      }
      OthersStay(p, act, t);
      MissFreeReaches(r, t, ptr, rest, more, acts[1..], q, held);
    }
  }

  // ------------------------------------------------- malloc without interference

  /** The pool after a thread's arena becomes `st` and the thread is idle again. */
  ghost function Settled(p: Pool, t: Tid, st: ArenaState): Pool
    requires t in p.threads && p.threads[t].arena.Some? && p.threads[t].arena.value in p.arenas
  {
    SetThread(SetArena(p, p.threads[t].arena.value, st), t, p.threads[t].(pc := Idle))
  }

  /** What is left of `malloc` once the chunks before `n` are known to be full. */
  ghost function Rest(st: ArenaState, begin: int): (ArenaState, int) {
    var k := FirstFree(st.chunks);
    if k < |st.chunks| then (AllocateIn(st, k), BlockIn(st, k)) else (Extend(st, begin), begin)
  }

  lemma LeadsCons(p: Pool, had: set<int>, act: Action, acts: seq<Action>, q: Pool, held: set<int>)
    requires PoolInv(p) && Enabled(p, act) && PoolInv(Apply(p, act))
    requires Leads(Apply(p, act), Held(p, act, had), acts, q, held)
    ensures Leads(p, had, [act] + acts, q, held)
  {
    assert ([act] + acts)[1..] == acts;
  }

  /** The actions of a thread's `malloc` that try a chunk. */
  predicate Tries(act: Action, t: Tid) {
    act == MallocCurrent(t) || act == MallocNext(t)
  }

  lemma TryHands(p: Pool, t: Tid, act: Action)
    requires PoolInv(p) && Enabled(p, act) && Tries(act, t)
    ensures t in p.threads && p.threads[t].arena.Some? && Ended(p, act) == None
    ensures var st, k := Own(p, t), Tried(p, act);
      Handed(p, act) == if st.chunks[k].free == [] then None else Some(BlockIn(st, k))
  {
    match act
    case MallocCurrent(_) =>
    case MallocNext(_) =>
  }

  lemma TryApplies(p: Pool, t: Tid, act: Action)
    requires PoolInv(p) && Enabled(p, act) && Tries(act, t)
    ensures t in p.threads && p.threads[t].arena.Some? && Ended(p, act) == None
    ensures var st, k := Own(p, t), Tried(p, act);
      && Apply(p, act) == TryChunk(p, t, k, if act.MallocCurrent? then 0 else k + 1)
      && Handed(p, act) == if st.chunks[k].free == [] then None else Some(BlockIn(st, k))
  {
    TryHands(p, t, act);
    var k := Tried(p, act);
    if act.MallocCurrent? {
      CurrentTries(p, t, k);
    } else {
      NextTries(p, t, k, k + 1);
    }
  }

  lemma HitStep(p: Pool, t: Tid, act: Action, had: set<int>)
    requires PoolInv(p) && Enabled(p, act) && Tries(act, t)
    requires Own(p, t).chunks[Tried(p, act)].free != []
    ensures t in p.threads && p.threads[t].arena.Some? && p.threads[t].arena.value in p.arenas
    ensures var k := Tried(p, act);
      Leads(p, had, [act], Settled(p, t, AllocateIn(Own(p, t), k)), had + {BlockIn(Own(p, t), k)})
  {
    OwnIs(p, t);
    TryApplies(p, t, act);
    var st := AllocateIn(Own(p, t), Tried(p, act));
    assert Apply(p, act) == Settled(p, t, st);
    OneStep(p, had, act);
    HeldIs(p, act, had, BlockIn(Own(p, t), Tried(p, act)));
  }

  lemma HeldIs(p: Pool, act: Action, had: set<int>, x: int)
    requires PoolInv(p) && Enabled(p, act) && Ended(p, act) == None && Handed(p, act) == Some(x)
    ensures Held(p, act, had) == had + {x}
  {
  }

  lemma OneStep(p: Pool, had: set<int>, act: Action)
    requires PoolInv(p) && Enabled(p, act)
    ensures PoolInv(Apply(p, act)) && Leads(p, had, [act], Apply(p, act), Held(p, act, had))
  {
    StepInv(p, act);
    LeadsCons(p, had, act, [], Apply(p, act), Held(p, act, had));
    assert [act] + [] == [act];
  }

  lemma MissStep(p: Pool, t: Tid, act: Action, had: set<int>)
    requires PoolInv(p) && Enabled(p, act) && Tries(act, t)
    requires Own(p, t).chunks[Tried(p, act)].free == []
    ensures PoolInv(Apply(p, act)) && Held(p, act, had) == had
    ensures var n := if act.MallocCurrent? then 0 else Tried(p, act) + 1;
      Apply(p, act) == SetThread(p, t, p.threads[t].(pc := Searching(n)))
  {
    TryApplies(p, t, act);
    StepInv(p, act);
  }

  lemma ExtendStep(p: Pool, t: Tid, begin: int, had: set<int>)
    requires PoolInv(p) && Enabled(p, MallocExtend(t, begin))
    ensures t in p.threads && p.threads[t].arena.Some? && p.threads[t].arena.value in p.arenas
    ensures Leads(p, had, [MallocExtend(t, begin)], Settled(p, t, Extend(Own(p, t), begin)), had + {begin})
  {
    var act := MallocExtend(t, begin);
    OwnIs(p, t);
    OneStep(p, had, act);
    HeldIs(p, act, had, begin);
  }

  lemma SettledAnyway(p: Pool, t: Tid, pc: Pc, st: ArenaState)
    requires t in p.threads && p.threads[t].arena.Some? && p.threads[t].arena.value in p.arenas
    ensures Settled(SetThread(p, t, p.threads[t].(pc := pc)), t, st) == Settled(p, t, st)
  {
    var x, y := p.threads[t].(pc := pc), p.threads[t].(pc := Idle);
    assert p.threads[t := x][t := y] == p.threads[t := y];
  }

  /** The thread's arena, by another name. */
  lemma OwnIs(p: Pool, t: Tid)
    requires PoolInv(p) && t in p.threads && p.threads[t].arena.Some?
    ensures p.threads[t].arena.value in p.arenas && Own(p, t) == p.arenas[p.threads[t].arena.value].st
    ensures Inv(Own(p, t))
  {
  }

  lemma SearchEnds(p: Pool, t: Tid, n: nat, begin: int, had: set<int>) returns (act: Action)
    requires PoolInv(p) && t in p.threads && p.threads[t].pc == Searching(n) && p.threads[t].arena.Some?
    requires p.threads[t].arena.value in p.arenas
    requires n == FirstFree(Own(p, t).chunks) && ClearOfAll(p, Own(p, t).blockSize, begin)
    ensures var (st, ptr) := Rest(Own(p, t), begin); Leads(p, had, [act], Settled(p, t, st), had + {ptr})
  {
    if n == |Own(p, t).chunks| {
      act := MallocExtend(t, begin);
      ExtendStep(p, t, begin, had);
    } else {
      act := MallocNext(t);
      assert Enabled(p, act) && Tried(p, act) == n;
      HitStep(p, t, act, had);
    }
  }

  lemma {:induction false} SearchAlone(p: Pool, t: Tid, n: nat, begin: int, had: set<int>)
    returns (acts: seq<Action>)
    requires PoolInv(p) && t in p.threads && p.threads[t].pc == Searching(n) && p.threads[t].arena.Some?
    requires p.threads[t].arena.value in p.arenas
    requires n <= FirstFree(Own(p, t).chunks) && ClearOfAll(p, Own(p, t).blockSize, begin)
    ensures var (st, ptr) := Rest(Own(p, t), begin); Leads(p, had, acts, Settled(p, t, st), had + {ptr})
    decreases |Own(p, t).chunks| - n, 0
  {
    if n == FirstFree(Own(p, t).chunks) {
      var act := SearchEnds(p, t, n, begin, had);
      acts := [act];
    } else {
      var next := MallocNext(t);
      assert Enabled(p, next) && Tried(p, next) == n;
      acts := MissThenSearch(p, t, next, n + 1, begin, had);
    }
  }

  lemma {:induction false} MissThenSearch(p: Pool, t: Tid, act: Action, n: nat, begin: int, had: set<int>)
    returns (acts: seq<Action>)
    requires PoolInv(p) && Enabled(p, act) && Tries(act, t) && t in p.threads && p.threads[t].arena.Some?
    requires p.threads[t].arena.value in p.arenas
    requires Own(p, t).chunks[Tried(p, act)].free == [] && n == if act.MallocCurrent? then 0 else Tried(p, act) + 1
    requires n <= FirstFree(Own(p, t).chunks) && ClearOfAll(p, Own(p, t).blockSize, begin)
    ensures var (st, ptr) := Rest(Own(p, t), begin); Leads(p, had, acts, Settled(p, t, st), had + {ptr})
    decreases |Own(p, t).chunks| - n, 1
  {
    MissStep(p, t, act, had);
    var r := SetThread(p, t, p.threads[t].(pc := Searching(n)));
    assert Apply(p, act) == r;
    OwnIs(p, t);
    OwnIs(r, t);
    acts := SearchAlone(r, t, n, begin, had);
    var (st, ptr) := Rest(Own(p, t), begin);
    SettledAnyway(p, t, Searching(n), st);
    LeadsCons(p, had, act, acts, Settled(p, t, st), had + {ptr});
    acts := [act] + acts;
  }

  /** Without interference the allocating actions of a thread do what the arena's `malloc` does. */
  lemma MallocAlone(p: Pool, t: Tid, begin: int, had: set<int>) returns (acts: seq<Action>)
    requires PoolInv(p) && t in p.threads && p.threads[t].pc.Idle? && p.threads[t].arena.Some?
    requires ClearOfAll(p, Own(p, t).blockSize, begin)
    ensures Inv(Own(p, t)) && p.threads[t].arena.value in p.arenas
    ensures var (st, ptr) := Malloc(Own(p, t), begin); Leads(p, had, acts, Settled(p, t, st), had + {ptr})
  {
    var st, act := Own(p, t), MallocCurrent(t);
    OwnIs(p, t);
    if st.chunks[Tried(p, act)].free != [] {
      HitStep(p, t, act, had);
      acts := [act];
    } else {
      acts := MissThenSearch(p, t, act, 0, begin, had);
    }
  }
}
