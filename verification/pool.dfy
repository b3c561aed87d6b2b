/**
 A pool under concurrency, as a transition system.

 Threads reserve arenas by test-and-set while they walk the arena list, create
 and publish an arena when none is free, allocate from their arena, free
 blocks handed out by any thread, and on exit shrink and give up their arena.
 One action is one atomic access or one section under an arena's lock; the
 arenas themselves are the values the arena methods are proved against.  Taking
 a block out of a thread's own arena, which the code does without the lock, is
 one exclusive action.
 */
module Pools {
  import opened Basics
  import opened Chunks
  import opened ArenaStates

  type Aid = nat

  datatype Pc =
    | Idle
    | Scanning(rest: seq<Aid>)            // reserve: arenas still to be tried
    | Pushing                             // reserve: new arena made, not yet published
    | Searching(next: nat)                // malloc: chunks before `next` were found full
    | Missed(ptr: int)                    // free: not a block of the thread's own arena
    | Missing(ptr: int, rest: seq<Aid>)   // thread_miss_free: arenas still to be asked
    | Leaving                             // exit: arena shrunk, still reserved

  datatype PoolArena = PoolArena(reserved: bool, st: ArenaState)

  datatype Thread = Thread(arena: Option<Aid>, pc: Pc)

  datatype Pool = Pool(arenas: map<Aid, PoolArena>, list: seq<Aid>, threads: map<Tid, Thread>)

  datatype Action =
    | StartReserve(t: Tid)
    | TryReserve(t: Tid)
    | CreateArena(t: Tid, a: Aid, blockSize: nat, begin: int)
    | PushArena(t: Tid)
    | MallocCurrent(t: Tid)
    | MallocNext(t: Tid)
    | MallocExtend(t: Tid, begin: int)
    | FreeOwn(t: Tid, ptr: int)
    | LoadList(t: Tid)
    | AskNext(t: Tid)
    | ShrinkArena(t: Tid, begin: int)
    | ReleaseArena(t: Tid)

  function ThreadOf(p: Pool, t: Tid): Thread {
    if t in p.threads then p.threads[t] else Thread(None, Idle)
  }

  /** Some arena has the block in use. */
  ghost predicate Alive(p: Pool, ptr: int) {
    exists a :: a in p.arenas && ptr in Live(p.arenas[a].st.chunks)
  }

  /** The block a thread is in the middle of freeing. */
  function Freeing(th: Thread): Option<int> {
    match th.pc
    case Missed(ptr) => Some(ptr)
    case Missing(ptr, _) => Some(ptr)
    case _ => None
  }

  /** No chunk of any arena touches the place the system offers. */
  ghost predicate ClearOfAll(p: Pool, blockSize: nat, begin: int) {
    match p
    case Pool(arenas, _, _) => forall a :: a in arenas ==> Clear(blockSize, arenas[a].st.chunks, begin)
  }

  /** A chunk of arena `a` at `begin` would touch no other arena. */
  ghost predicate ClearOfOthers(p: Pool, a: Aid, begin: int)
    requires a in p.arenas
  {
    match p
    case Pool(arenas, _, _) =>
      forall b :: b in arenas && b != a ==> Clear(arenas[a].st.blockSize, arenas[b].st.chunks, begin)
  }

  // ---------------------------------------------------------------- invariant

  /** Chunks of two arenas lie apart. */
  ghost predicate Apart(x: ArenaState, y: ArenaState) {
    forall j, k :: 0 <= j < |x.chunks| && 0 <= k < |y.chunks| ==>
      x.chunks[j].End() < y.chunks[k].begin || y.chunks[k].End() < x.chunks[j].begin
  }

  ghost predicate ArenasSound(arenas: map<Aid, PoolArena>) {
    && (forall a :: a in arenas ==> Inv(arenas[a].st))
    && (forall a, b :: a in arenas && b in arenas && a != b ==> Apart(arenas[a].st, arenas[b].st))
  }

  /** A held arena exists, is flagged, and has one holder; what a thread does fits what it holds. */
  ghost predicate Reserved(p: Pool) {
    match p
    case Pool(arenas, list, threads) =>
      && (forall t :: t in threads && threads[t].arena.Some? ==>
            threads[t].arena.value in arenas && arenas[threads[t].arena.value].reserved)
      && (forall t, u :: t in threads && u in threads && t != u && threads[t].arena.Some? ==>
            threads[t].arena != threads[u].arena)
      && (forall t :: t in threads ==> Fits(threads[t]))
  }

  ghost predicate HasHolder(p: Pool, a: Aid) {
    exists t :: t in p.threads && p.threads[t].arena == Some(a)
  }

  /** A flagged arena has a holder, so the arena of a thread that exited can be reserved again. */
  ghost predicate Flagged(p: Pool) {
    match p
    case Pool(arenas, _, _) => forall a :: a in arenas && arenas[a].reserved ==> HasHolder(p, a)
  }

  predicate Fits(th: Thread) {
    match th.pc
    case Idle => true
    case Scanning(_) => th.arena == None
    case _ => th.arena.Some?
  }

  /** The list names each arena once, except those about to be pushed, which have no block in use. */
  ghost predicate Listed(p: Pool) {
    match p
    case Pool(arenas, list, threads) =>
      && (forall i, j :: 0 <= i < j < |list| ==> list[i] != list[j])
      && (forall a <- list :: a in arenas)
      && (forall a :: a in arenas ==> (a !in list <==> BeingPushed(p, a)))
      && (forall a :: a in arenas && a !in list ==> Live(arenas[a].st.chunks) == {})
      && (forall t :: t in threads && threads[t].pc.Scanning? ==>
            forall a <- threads[t].pc.rest :: a in list)
  }

  ghost predicate BeingPushed(p: Pool, a: Aid) {
    exists t :: t in p.threads && p.threads[t] == Thread(Some(a), Pushing)
  }

  /** A block being freed is in use, by one arena still to be asked, and freed by one thread. */
  ghost predicate FreesSound(p: Pool) {
    match p
    case Pool(arenas, list, threads) =>
      && (forall t :: t in threads && Freeing(threads[t]) != None ==>
            Alive(p, Freeing(threads[t]).value))
      && (forall t, u :: t in threads && u in threads && t != u && Freeing(threads[t]) != None ==>
            Freeing(threads[t]) != Freeing(threads[u]))
      && (forall t :: t in threads && threads[t].pc.Missing? ==>
            && (forall a <- threads[t].pc.rest :: a in list)
            && StillToAsk(p, threads[t].pc))
  }

  ghost predicate StillToAsk(p: Pool, pc: Pc)
    requires pc.Missing?
  {
    exists a :: a in pc.rest && a in p.arenas && pc.ptr in Live(p.arenas[a].st.chunks)
  }

  ghost predicate PoolInv(p: Pool) {
    match p
    case Pool(arenas, _, _) => ArenasSound(arenas) && Reserved(p) && Flagged(p) && Listed(p) && FreesSound(p)
  }

  // ------------------------------------------------------------------ actions

  /** The arena a thread holds. */
  ghost function Own(p: Pool, t: Tid): ArenaState
    requires Reserved(p) && ThreadOf(p, t).arena.Some?
  {
    p.arenas[p.threads[t].arena.value].st
  }

  ghost predicate Enabled(p: Pool, act: Action)
    requires PoolInv(p)
  {
    var th := ThreadOf(p, act.t);
    match act
    case StartReserve(t) => th.pc.Idle? && th.arena == None
    case TryReserve(t) => th.pc.Scanning? && th.pc.rest != []
    case CreateArena(t, a, bs, begin) =>
      th.pc == Scanning([]) && a !in p.arenas && 1 <= bs <= 255 && ClearOfAll(p, bs, begin)
    case PushArena(t) => th.pc.Pushing?
    case MallocCurrent(t) => th.pc.Idle? && th.arena.Some?
    case MallocNext(t) => th.pc.Searching? && th.pc.next < |Own(p, t).chunks|
    case MallocExtend(t, begin) =>
      th.pc.Searching? && th.pc.next >= |Own(p, t).chunks| && ClearOfAll(p, Own(p, t).blockSize, begin)
    case FreeOwn(t, ptr) =>
      && th.pc.Idle? && th.arena.Some? && Alive(p, ptr)
      && forall u :: u in p.threads ==> Freeing(p.threads[u]) != Some(ptr)
    case LoadList(t) => th.pc.Missed?
    case AskNext(t) => th.pc.Missing?
    case ShrinkArena(t, begin) =>
      th.pc.Idle? && th.arena.Some? && ClearOfOthers(p, th.arena.value, begin)
    case ReleaseArena(t) => th.pc.Leaving?
  }

  function SetThread(p: Pool, t: Tid, th: Thread): Pool {
    p.(threads := p.threads[t := th])
  }

  function SetArena(p: Pool, a: Aid, st: ArenaState): Pool
    requires a in p.arenas
  {
    p.(arenas := p.arenas[a := p.arenas[a].(st := st)])
  }

  function SetFlag(p: Pool, a: Aid, reserved: bool): Pool
    requires a in p.arenas
  {
    p.(arenas := p.arenas[a := p.arenas[a].(reserved := reserved)])
  }

  /** The chunk of its arena an allocating action tries. */
  ghost function Tried(p: Pool, act: Action): nat
    requires PoolInv(p) && Enabled(p, act) && (act.MallocCurrent? || act.MallocNext?)
    ensures Tried(p, act) < |Own(p, act.t).chunks|
  {
    var st := Own(p, act.t);
    if act.MallocCurrent? then Find(st.chunks, st.alloc) else p.threads[act.t].pc.next
  }

  ghost function Apply(p: Pool, act: Action): Pool
    requires PoolInv(p) && Enabled(p, act)
  {
    var t := act.t;
    var th := ThreadOf(p, t);
    match act
    case StartReserve(_) => SetThread(p, t, th.(pc := Scanning(p.list)))
    case TryReserve(_) =>
      var a := th.pc.rest[0];
      if p.arenas[a].reserved then SetThread(p, t, th.(pc := Scanning(th.pc.rest[1..])))
      else SetThread(SetFlag(p, a, true), t, Thread(Some(a), Idle))
    case CreateArena(_, a, bs, begin) =>
      SetThread(p.(arenas := p.arenas[a := PoolArena(true, NewArena(bs, begin))]), t, Thread(Some(a), Pushing))
    case PushArena(_) =>
      SetThread(p.(list := [th.arena.value] + p.list), t, th.(pc := Idle))
    case MallocCurrent(_) => TryChunk(p, t, Tried(p, act), 0)
    case MallocNext(_) => TryChunk(p, t, Tried(p, act), Tried(p, act) + 1)
    case MallocExtend(_, begin) =>
      SetThread(SetArena(p, th.arena.value, Extend(Own(p, t), begin)), t, th.(pc := Idle))
    case FreeOwn(_, ptr) =>
      var (st, ok) := Free(Own(p, t), ptr);
      SetThread(SetArena(p, th.arena.value, st), t, th.(pc := if ok then Idle else Missed(ptr)))
    case LoadList(_) => SetThread(p, t, th.(pc := Missing(th.pc.ptr, p.list)))
    case AskNext(_) =>
      var a := th.pc.rest[0];
      var (st, ok) := Free(p.arenas[a].st, th.pc.ptr);
      SetThread(SetArena(p, a, st), t, th.(pc := if ok then Idle else Missing(th.pc.ptr, th.pc.rest[1..])))
    case ShrinkArena(_, begin) =>
      SetThread(SetArena(p, th.arena.value, Shrink(Own(p, t), begin)), t, th.(pc := Leaving))
    case ReleaseArena(_) =>
      SetThread(SetFlag(p, th.arena.value, false), t, Thread(None, Idle))
  }

  /** One locked attempt to allocate from one chunk; if it is full, the search goes on at `next`. */
  ghost function TryChunk(p: Pool, t: Tid, k: nat, next: nat): Pool
    requires Reserved(p) && ThreadOf(p, t).arena.Some? && k < |Own(p, t).chunks|
  {
    var th := p.threads[t];
    if Own(p, t).chunks[k].free == [] then SetThread(p, t, th.(pc := Searching(next)))
    else SetThread(SetArena(p, th.arena.value, AllocateIn(Own(p, t), k)), t, th.(pc := Idle))
  }

  /** The block an action hands to the program. */
  ghost function Handed(p: Pool, act: Action): Option<int>
    requires PoolInv(p) && Enabled(p, act)
  {
    match act
    case MallocCurrent(t) =>
      var k := Tried(p, act);
      if Own(p, t).chunks[k].free == [] then None else Some(BlockIn(Own(p, t), k))
    case MallocNext(t) =>
      var k := Tried(p, act);
      if Own(p, t).chunks[k].free == [] then None else Some(BlockIn(Own(p, t), k))
    case MallocExtend(_, begin) => Some(begin)
    case _ => None
  }

  /** The block whose life an action ends. */
  ghost function Ended(p: Pool, act: Action): Option<int>
    requires PoolInv(p) && Enabled(p, act)
  {
    match act
    case FreeOwn(t, ptr) => if Free(Own(p, t), ptr).1 then Some(ptr) else None
    case AskNext(t) =>
      var pc := p.threads[t].pc;
      if Free(p.arenas[pc.rest[0]].st, pc.ptr).1 then Some(pc.ptr) else None
    case _ => None
  }
}
