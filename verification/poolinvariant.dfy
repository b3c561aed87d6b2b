/**
 Every action of a pool keeps its invariant: arenas lie apart, reservation is
 exclusive, the list is complete, and a block being freed can be reached.
 */
module PoolInvariant {
  import opened Basics
  import opened Chunks
  import opened ArenaStates
  import opened Pools

  // ------------------------------------------------- how arenas stay apart

  /** Every chunk of `y` has the bounds of a chunk of `x`, or of a new chunk at `begin`. */
  ghost predicate Grown(x: ArenaState, y: ArenaState, begin: int) {
    forall k :: 0 <= k < |y.chunks| ==>
      (y.chunks[k].begin == begin && y.chunks[k].blockSize == x.blockSize)
      || Bounded(x, y.chunks[k])
  }

  ghost predicate Bounded(x: ArenaState, c: ChunkState) {
    exists j :: 0 <= j < |x.chunks| && x.chunks[j].begin == c.begin && x.chunks[j].blockSize == c.blockSize
  }

  lemma GrownApart(x: ArenaState, y: ArenaState, begin: int, z: ArenaState)
    requires Grown(x, y, begin) && Apart(x, z) && Clear(x.blockSize, z.chunks, begin)
    ensures Apart(y, z) && Apart(z, y)
  {
    forall k, i | 0 <= k < |y.chunks| && 0 <= i < |z.chunks|
      ensures y.chunks[k].End() < z.chunks[i].begin || z.chunks[i].End() < y.chunks[k].begin
    {
      if !(y.chunks[k].begin == begin && y.chunks[k].blockSize == x.blockSize) {
        var j :| 0 <= j < |x.chunks|
          && x.chunks[j].begin == y.chunks[k].begin && x.chunks[j].blockSize == y.chunks[k].blockSize;
      }
    }
  }

  lemma SameBounds(x: ArenaState, y: ArenaState, begin: int)
    requires |y.chunks| == |x.chunks|
    requires forall k :: 0 <= k < |x.chunks| ==>
      y.chunks[k].begin == x.chunks[k].begin && y.chunks[k].blockSize == x.chunks[k].blockSize
    ensures Grown(x, y, begin)
  {
    forall k | 0 <= k < |y.chunks| ensures Bounded(x, y.chunks[k]) {
      assert x.chunks[k].begin == y.chunks[k].begin;
    }
  }

  lemma ExtendGrows(x: ArenaState, begin: int)
    requires Inv(x) && Clear(x.blockSize, x.chunks, begin)
    ensures Grown(x, Extend(x, begin), begin)
  {
    var c := NewState(begin, x.blockSize).Allocated();
    NewStateOk(begin, x.blockSize);
    PlacedLaid(x.blockSize, x.chunks, c);
    MembersGrow(x, Extend(x, begin), begin, c);
  }

  lemma ShrinkGrows(x: ArenaState, begin: int)
    requires Inv(x)
    ensures Grown(x, Shrink(x, begin), begin)
  {
    OccupiedMembers(x.chunks);
    MembersGrow(x, Shrink(x, begin), begin, NewState(begin, x.blockSize));
  }

  lemma MembersGrow(x: ArenaState, y: ArenaState, begin: int, c: ChunkState)
    requires c.begin == begin && c.blockSize == x.blockSize
    requires forall d <- y.chunks :: d == c || d in x.chunks
    ensures Grown(x, y, begin)
  {
    forall k | 0 <= k < |y.chunks| && y.chunks[k] != c ensures Bounded(x, y.chunks[k]) {
      assert y.chunks[k] in y.chunks;
      var j :| 0 <= j < |x.chunks| && x.chunks[j] == y.chunks[k];
      assert x.chunks[j].begin == y.chunks[k].begin;
    }
  }

  lemma FreeGrows(x: ArenaState, ptr: int, begin: int)
    requires Inv(x)
    ensures Grown(x, Free(x, ptr).0, begin)
  {
    SameBounds(x, Free(x, ptr).0, begin);
  }

  /** A live block of one arena lies in no other, so the others turn it away. */
  lemma ForeignBlock(x: ArenaState, z: ArenaState, ptr: int)
    requires Inv(x) && Inv(z) && Apart(x, z) && ptr in Live(z.chunks)
    ensures ptr !in Live(x.chunks) && Free(x, ptr) == (x, false)
  {
    var k: nat :| k < |z.chunks| && ptr in z.chunks[k].Live();
    LiveInOne(z.blockSize, z.chunks, k, ptr);
    assert Owner(x.chunks, ptr) == |x.chunks|;
    FreeForeign(x, ptr);
    if ptr in Live(x.chunks) {
      FreeRemovesOne(x, ptr);
    }
  }

  // --------------------------------------------------- the invariant is kept

  /** Changing one arena's state, with the chunks' places as `Grown` allows. */
  lemma ArenaChanged(p: Pool, a: Aid, st: ArenaState, begin: int)
    requires ArenasSound(p.arenas) && a in p.arenas && Inv(st)
    requires Grown(p.arenas[a].st, st, begin)
    requires ClearOfOthers(p, a, begin)
    ensures ArenasSound(SetArena(p, a, st).arenas)
  {
    forall b | b in p.arenas && b != a ensures Apart(st, p.arenas[b].st) && Apart(p.arenas[b].st, st) {
      GrownApart(p.arenas[a].st, st, begin, p.arenas[b].st);
    }
  }

  /** An arena whose holder is past publishing it is on the list. */
  lemma HeldIsListed(p: Pool, t: Tid)
    requires PoolInv(p) && t in p.threads && p.threads[t].arena.Some? && !p.threads[t].pc.Pushing?
    ensures p.threads[t].arena.value in p.list
  {
  }

  /** An arena with a block in use is on the list. */
  lemma AliveIsListed(p: Pool, a: Aid, ptr: int)
    requires PoolInv(p) && a in p.arenas && ptr in Live(p.arenas[a].st.chunks)
    ensures a in p.list
  {
  }

  /** No block of the arena ends its life but `gone`. */
  ghost predicate Spares(x: ArenaState, y: ArenaState, gone: Option<int>) {
    forall ptr <- Live(x.chunks) :: Some(ptr) != gone ==> ptr in Live(y.chunks)
  }

  /** A thread that is neither scanning, pushing nor freeing. */
  predicate Quiet(th: Thread) {
    (th.pc.Idle? || th.pc.Searching? || th.pc.Leaving?) && Fits(th)
  }

  /** Threads keep the arenas they hold, and no flag is set that was not. */
  lemma FlaggedKept(p: Pool, q: Pool)
    requires Flagged(p)
    requires forall a :: a in q.arenas && q.arenas[a].reserved ==> a in p.arenas && p.arenas[a].reserved
    requires forall t :: t in p.threads && p.threads[t].arena.Some? ==>
      t in q.threads && q.threads[t].arena == p.threads[t].arena
    ensures Flagged(q)
  {
    forall a | a in q.arenas && q.arenas[a].reserved ensures HasHolder(q, a) {
      assert HasHolder(p, a);
    }
  }

  lemma UpdatedFlagged(p: Pool, t: Tid, th: Thread, a: Aid, st: ArenaState)
    requires Flagged(p) && a in p.arenas && th.arena == ThreadOf(p, t).arena
    ensures Flagged(SetThread(SetArena(p, a, st), t, th))
  {
    FlaggedKept(p, SetThread(SetArena(p, a, st), t, th));
  }

  lemma MovedFlagged(p: Pool, t: Tid, th: Thread)
    requires Flagged(p) && th.arena == ThreadOf(p, t).arena
    ensures Flagged(SetThread(p, t, th))
  {
    FlaggedKept(p, SetThread(p, t, th));
  }

  lemma UpdatedReserved(p: Pool, t: Tid, th: Thread, a: Aid, st: ArenaState)
    requires Reserved(p) && t in p.threads && a in p.arenas && Fits(th) && th.arena == p.threads[t].arena
    ensures Reserved(SetThread(SetArena(p, a, st), t, th))
  {
  }

  lemma UpdatedListed(p: Pool, t: Tid, th: Thread, a: Aid, st: ArenaState)
    requires Listed(p) && t in p.threads && a in p.list && a in p.arenas && Quiet(th)
    requires th.arena == p.threads[t].arena && !p.threads[t].pc.Pushing?
    ensures Listed(SetThread(SetArena(p, a, st), t, th))
  {
    var q := SetThread(SetArena(p, a, st), t, th);
    forall b | BeingPushed(p, b) ensures BeingPushed(q, b) {
      var u :| u in p.threads && p.threads[u] == Thread(Some(b), Pushing);
      assert q.threads[u] == Thread(Some(b), Pushing);
    }
    forall b | BeingPushed(q, b) ensures BeingPushed(p, b) {
      var u :| u in q.threads && q.threads[u] == Thread(Some(b), Pushing);
      assert p.threads[u] == Thread(Some(b), Pushing);
    }
  }

  lemma UpdatedFrees(p: Pool, t: Tid, th: Thread, a: Aid, st: ArenaState, gone: Option<int>)
    requires FreesSound(p) && t in p.threads && a in p.arenas && Quiet(th)
    requires Spares(p.arenas[a].st, st, gone)
    requires gone.Some? ==> forall u :: u in p.threads && u != t ==> Freeing(p.threads[u]) != gone
    ensures FreesSound(SetThread(SetArena(p, a, st), t, th))
  {
    var q := SetThread(SetArena(p, a, st), t, th);
    forall u | u in q.threads && Freeing(q.threads[u]) != None ensures Alive(q, Freeing(q.threads[u]).value) {
      var b :| b in p.arenas && Freeing(p.threads[u]).value in Live(p.arenas[b].st.chunks);
      assert Freeing(p.threads[u]).value in Live(q.arenas[b].st.chunks);
    }
    forall u | u in q.threads && q.threads[u].pc.Missing?
      ensures (forall b <- q.threads[u].pc.rest :: b in q.list) && StillToAsk(q, q.threads[u].pc)
    {
      var b :| b in p.threads[u].pc.rest && b in p.arenas && p.threads[u].pc.ptr in Live(p.arenas[b].st.chunks);
      assert p.threads[u].pc.ptr in Live(q.arenas[b].st.chunks);
    }
  }

  /**
   An arena on the list changes its state and a thread its place; no block
   ends its life but `gone`, which no other thread is freeing.
   */
  lemma Updated(p: Pool, t: Tid, th: Thread, a: Aid, st: ArenaState, begin: int, gone: Option<int>)
    requires PoolInv(p) && t in p.threads && a in p.list && a in p.arenas && Quiet(th)
    requires th.arena == p.threads[t].arena && !p.threads[t].pc.Pushing?
    requires Inv(st) && Grown(p.arenas[a].st, st, begin) && Spares(p.arenas[a].st, st, gone)
    requires ClearOfOthers(p, a, begin)
    requires gone.Some? ==> forall u :: u in p.threads && u != t ==> Freeing(p.threads[u]) != gone
    ensures PoolInv(SetThread(SetArena(p, a, st), t, th))
  {
    ArenaChanged(p, a, st, begin);
    UpdatedReserved(p, t, th, a, st);
    UpdatedFlagged(p, t, th, a, st);
    UpdatedListed(p, t, th, a, st);
    UpdatedFrees(p, t, th, a, st, gone);
  }

  lemma ApartIsClear(x: ArenaState, z: ArenaState)
    requires Inv(x) && Apart(x, z)
    ensures Clear(x.blockSize, z.chunks, x.alloc)
  {
    var k :| 0 <= k < |x.chunks| && x.chunks[k].begin == x.alloc;
  }

  /** A place an arena already has is clear of the others. */
  lemma OwnPlace(p: Pool, a: Aid) returns (begin: int)
    requires ArenasSound(p.arenas) && a in p.arenas
    ensures ClearOfOthers(p, a, begin)
  {
    var st := p.arenas[a].st;
    assert Inv(st);
    begin := st.alloc;
    forall b | b in p.arenas && b != a ensures Clear(st.blockSize, p.arenas[b].st.chunks, begin) {
      ApartIsClear(st, p.arenas[b].st);
    }
  }

  lemma SetSame(p: Pool, a: Aid)
    requires a in p.arenas
    ensures SetArena(p, a, p.arenas[a].st) == p
  {
    assert p.arenas[a := p.arenas[a]] == p.arenas;
  }

  /** Only a thread's place changes, and it stays out of the list's and the frees' way. */
  lemma Quieted(p: Pool, t: Tid, th: Thread)
    requires PoolInv(p) && t in p.threads && Quiet(th)
    requires th.arena == p.threads[t].arena && th.arena.Some? && !p.threads[t].pc.Pushing?
    ensures PoolInv(SetThread(p, t, th))
  {
    var a := th.arena.value;
    HeldIsListed(p, t);
    var begin := OwnPlace(p, a);
    SameBounds(p.arenas[a].st, p.arenas[a].st, begin);
    Updated(p, t, th, a, p.arenas[a].st, begin, None);
    SetSame(p, a);
  }

  lemma AllocateSound(st: ArenaState, k: nat, begin: int)
    requires Inv(st) && k < |st.chunks| && st.chunks[k].free != []
    ensures var next := AllocateIn(st, k); Inv(next) && Spares(st, next, None) && Grown(st, next, begin)
  {
    AllocateInAdds(st, k);
    SameBounds(st, AllocateIn(st, k), begin);
  }

  lemma TryChunkInv(p: Pool, t: Tid, k: nat, next: nat)
    requires PoolInv(p) && t in p.threads && p.threads[t].arena.Some? && k < |Own(p, t).chunks|
    requires p.threads[t].pc.Idle? || p.threads[t].pc.Searching?
    ensures PoolInv(TryChunk(p, t, k, next))
  {
    var th, st := p.threads[t], Own(p, t);
    HeldIsListed(p, t);
    if st.chunks[k].free == [] {
      Quieted(p, t, th.(pc := Searching(next)));
    } else {
      var begin := OwnPlace(p, th.arena.value);
      AllocateSound(st, k, begin);
      Updated(p, t, th.(pc := Idle), th.arena.value, AllocateIn(st, k), begin, None);
    }
  }

  lemma ExtendInv(p: Pool, t: Tid, begin: int)
    requires PoolInv(p) && Enabled(p, MallocExtend(t, begin))
    ensures PoolInv(Apply(p, MallocExtend(t, begin)))
  {
    var th, st := p.threads[t], Own(p, t);
    HeldIsListed(p, t);
    ExtendAdds(st, begin);
    ExtendGrows(st, begin);
    Updated(p, t, th.(pc := Idle), th.arena.value, Extend(st, begin), begin, None);
  }

  lemma ShrinkInv(p: Pool, t: Tid, begin: int)
    requires PoolInv(p) && Enabled(p, ShrinkArena(t, begin))
    ensures PoolInv(Apply(p, ShrinkArena(t, begin)))
  {
    var th, st := p.threads[t], Own(p, t);
    HeldIsListed(p, t);
    ShrinkKeepsLive(st, begin);
    ShrinkGrows(st, begin);
    Updated(p, t, th.(pc := Leaving), th.arena.value, Shrink(st, begin), begin, None);
  }

  lemma FreeSound(st: ArenaState, ptr: int, begin: int)
    requires Inv(st) && ptr in Live(st.chunks)
    ensures Free(st, ptr).1 && Inv(Free(st, ptr).0)
    ensures Spares(st, Free(st, ptr).0, Some(ptr)) && Grown(st, Free(st, ptr).0, begin)
  {
    FreeRemovesOne(st, ptr);
    FreeGrows(st, ptr, begin);
  }

  /** Freeing a block that arena `a` has in use, by a thread that is the only one freeing it. */
  lemma FreedInv(p: Pool, t: Tid, th: Thread, a: Aid, ptr: int)
    requires PoolInv(p) && t in p.threads && a in p.arenas && ptr in Live(p.arenas[a].st.chunks)
    requires th == p.threads[t].(pc := Idle) && th.arena.Some? && !p.threads[t].pc.Pushing?
    requires forall u :: u in p.threads && u != t ==> Freeing(p.threads[u]) != Some(ptr)
    ensures Free(p.arenas[a].st, ptr).1
    ensures PoolInv(SetThread(SetArena(p, a, Free(p.arenas[a].st, ptr).0), t, th))
  {
    AliveIsListed(p, a, ptr);
    var begin := OwnPlace(p, a);
    FreeSound(p.arenas[a].st, ptr, begin);
    Updated(p, t, th, a, Free(p.arenas[a].st, ptr).0, begin, Some(ptr));
  }

  /** The arena that has a block in use. */
  lemma OwnerOf(p: Pool, a: Aid, b: Aid, ptr: int)
    requires ArenasSound(p.arenas) && a in p.arenas && b in p.arenas && a != b
    requires ptr in Live(p.arenas[b].st.chunks)
    ensures ptr !in Live(p.arenas[a].st.chunks) && Free(p.arenas[a].st, ptr) == (p.arenas[a].st, false)
  {
    ForeignBlock(p.arenas[a].st, p.arenas[b].st, ptr);
  }

  lemma MovedListed(p: Pool, t: Tid, th: Thread)
    requires Listed(p) && t in p.threads && th.arena == p.threads[t].arena
    requires !p.threads[t].pc.Pushing? && !th.pc.Pushing? && !th.pc.Scanning?
    ensures Listed(SetThread(p, t, th))
  {
    var q := SetThread(p, t, th);
    forall b | BeingPushed(p, b) ensures BeingPushed(q, b) {
      var u :| u in p.threads && p.threads[u] == Thread(Some(b), Pushing);
      assert q.threads[u] == Thread(Some(b), Pushing);
    }
    forall b | BeingPushed(q, b) ensures BeingPushed(p, b) {
      var u :| u in q.threads && q.threads[u] == Thread(Some(b), Pushing);
      assert p.threads[u] == Thread(Some(b), Pushing);
    }
  }

  lemma MovedReserved(p: Pool, t: Tid, th: Thread)
    requires Reserved(p) && t in p.threads && Fits(th) && th.arena == p.threads[t].arena
    ensures Reserved(SetThread(p, t, th))
  {
  }

  lemma MovedFrees(p: Pool, t: Tid, th: Thread)
    requires FreesSound(p) && t in p.threads
    requires Freeing(th) != None ==>
      Alive(p, Freeing(th).value) && forall u :: u in p.threads && u != t ==> Freeing(p.threads[u]) != Freeing(th)
    requires th.pc.Missing? ==> (forall a <- th.pc.rest :: a in p.list) && StillToAsk(p, th.pc)
    ensures FreesSound(SetThread(p, t, th))
  {
    var q := SetThread(p, t, th);
    forall u | u in q.threads && Freeing(q.threads[u]) != None ensures Alive(q, Freeing(q.threads[u]).value) {
      assert Alive(p, Freeing(q.threads[u]).value);
    }
    forall u | u in q.threads && q.threads[u].pc.Missing? ensures StillToAsk(q, q.threads[u].pc) {
      assert StillToAsk(p, q.threads[u].pc);
    }
  }

  /** A thread goes on freeing: its place changes, the block is the same, the arenas are untouched. */
  lemma FreeGoesOn(p: Pool, t: Tid, pc: Pc, ptr: int)
    requires PoolInv(p) && t in p.threads && p.threads[t].arena.Some? && !p.threads[t].pc.Pushing?
    requires pc == Missed(ptr) || (pc.Missing? && pc.ptr == ptr)
    requires Alive(p, ptr) && forall u :: u in p.threads && u != t ==> Freeing(p.threads[u]) != Some(ptr)
    requires pc.Missing? ==> (forall a <- pc.rest :: a in p.list) && StillToAsk(p, pc)
    ensures PoolInv(SetThread(p, t, p.threads[t].(pc := pc)))
  {
    var th := p.threads[t].(pc := pc);
    MovedListed(p, t, th);
    MovedReserved(p, t, th);
    MovedFlagged(p, t, th);
    MovedFrees(p, t, th);
  }

  /** Where asking an arena to free a block takes a thread, given where it goes if the arena declines. */
  ghost function Asked(p: Pool, t: Tid, a: Aid, ptr: int, otherwise: Pc): Pool
    requires ArenasSound(p.arenas) && t in p.threads && a in p.arenas
  {
    var (st, ok) := Free(p.arenas[a].st, ptr);
    SetThread(SetArena(p, a, st), t, p.threads[t].(pc := if ok then Idle else otherwise))
  }

  /** The arena that has the block frees it. */
  lemma AskedOwner(p: Pool, t: Tid, a: Aid, ptr: int, otherwise: Pc)
    requires PoolInv(p) && t in p.threads && p.threads[t].arena.Some? && !p.threads[t].pc.Pushing?
    requires a in p.arenas && ptr in Live(p.arenas[a].st.chunks)
    requires forall u :: u in p.threads && u != t ==> Freeing(p.threads[u]) != Some(ptr)
    ensures Free(p.arenas[a].st, ptr).1
    ensures PoolInv(Asked(p, t, a, ptr, otherwise))
  {
    FreedInv(p, t, p.threads[t].(pc := Idle), a, ptr);
  }

  /** Any other arena declines and is left as it was. */
  lemma AskedOther(p: Pool, t: Tid, a: Aid, b: Aid, ptr: int, otherwise: Pc)
    requires ArenasSound(p.arenas) && t in p.threads && a in p.arenas && b in p.arenas && a != b
    requires ptr in Live(p.arenas[b].st.chunks)
    ensures !Free(p.arenas[a].st, ptr).1
    ensures Asked(p, t, a, ptr, otherwise) == SetThread(p, t, p.threads[t].(pc := otherwise))
  {
    OwnerOf(p, a, b, ptr);
    SetSame(p, a);
  }

  /** A block in the middle of being freed has one arena that has it in use, and one thread that frees it. */
  lemma BeingFreed(p: Pool, t: Tid, ptr: int) returns (b: Aid)
    requires FreesSound(p) && t in p.threads && Freeing(p.threads[t]) == Some(ptr)
    ensures b in p.arenas && ptr in Live(p.arenas[b].st.chunks)
    ensures p.threads[t].pc.Missing? ==> b in p.threads[t].pc.rest && forall c <- p.threads[t].pc.rest :: c in p.list
    ensures forall u :: u in p.threads && u != t ==> Freeing(p.threads[u]) != Some(ptr)
  {
    if p.threads[t].pc.Missing? {
      b :| b in p.threads[t].pc.rest && b in p.arenas && ptr in Live(p.arenas[b].st.chunks);
    } else {
      assert Alive(p, ptr);
      b :| b in p.arenas && ptr in Live(p.arenas[b].st.chunks);
    }
  }

  lemma LoadListInv(p: Pool, t: Tid, ptr: int)
    requires PoolInv(p) && t in p.threads && p.threads[t].pc == Missed(ptr)
    ensures PoolInv(SetThread(p, t, p.threads[t].(pc := Missing(ptr, p.list))))
  {
    var b := BeingFreed(p, t, ptr);
    AliveIsListed(p, b, ptr);
    assert StillToAsk(p, Missing(ptr, p.list));
    assert Fits(p.threads[t]);
    FreeGoesOn(p, t, Missing(ptr, p.list), ptr);
  }

  lemma FreeOwnInv(p: Pool, t: Tid, ptr: int)
    requires PoolInv(p) && t in p.threads && p.threads[t].arena.Some? && p.threads[t].pc.Idle? && Alive(p, ptr)
    requires forall u :: u in p.threads ==> Freeing(p.threads[u]) != Some(ptr)
    ensures p.threads[t].arena.value in p.arenas
    ensures PoolInv(Asked(p, t, p.threads[t].arena.value, ptr, Missed(ptr)))
  {
    var a := p.threads[t].arena.value;
    assert a in p.arenas;
    var b :| b in p.arenas && ptr in Live(p.arenas[b].st.chunks);
    if a == b {
      AskedOwner(p, t, a, ptr, Missed(ptr));
    } else {
      AskedOther(p, t, a, b, ptr, Missed(ptr));
      FreeGoesOn(p, t, Missed(ptr), ptr);
    }
  }

  /**
   Asking the next arena on the list: the one that has the block frees it,
   any other declines unchanged, and the list is never exhausted first.
   */
  lemma AskNextReaches(p: Pool, t: Tid, ptr: int, rest: seq<Aid>) returns (b: Aid)
    requires PoolInv(p) && t in p.threads && p.threads[t].pc == Missing(ptr, rest)
    ensures b in rest && b in p.arenas && ptr in Live(p.arenas[b].st.chunks) && rest[0] in p.arenas
    ensures Free(p.arenas[rest[0]].st, ptr).1 <==> rest[0] == b
    ensures var q := Asked(p, t, rest[0], ptr, Missing(ptr, rest[1..]));
      && PoolInv(q)
      && (rest[0] != b ==> q == SetThread(p, t, p.threads[t].(pc := Missing(ptr, rest[1..]))) && b in rest[1..])
  {
    b := BeingFreed(p, t, ptr);
    assert Fits(p.threads[t]);
    if rest[0] == b {
      AskedOwner(p, t, b, ptr, Missing(ptr, rest[1..]));
    } else {
      AskedOther(p, t, rest[0], b, ptr, Missing(ptr, rest[1..]));
      assert StillToAsk(p, Missing(ptr, rest[1..]));
      FreeGoesOn(p, t, Missing(ptr, rest[1..]), ptr);
    }
  }

  lemma ScanReserved(p: Pool, t: Tid, rest: seq<Aid>)
    requires Reserved(p) && ThreadOf(p, t).arena == None
    ensures Reserved(SetThread(p, t, Thread(None, Scanning(rest))))
  {
  }

  /** A thread without an arena starts, or goes on, looking for one. */
  lemma ScanInv(p: Pool, t: Tid, rest: seq<Aid>)
    requires PoolInv(p) && ThreadOf(p, t).arena == None
    requires forall a <- rest :: a in p.list
    ensures PoolInv(SetThread(p, t, Thread(None, Scanning(rest))))
  {
    var th := Thread(None, Scanning(rest));
    assert t in p.threads ==> Fits(p.threads[t]);
    ThreadlessListed(p, p, t, th);
    ThreadlessFrees(p, p, t, th);
    ScanReserved(p, t, rest);
    MovedFlagged(p, t, th);
  }

  /** The arenas differ at most in their flags. */
  ghost predicate SameStates(p: Pool, q: Pool) {
    match p
    case Pool(arenas, list, threads) =>
      && q.arenas.Keys == arenas.Keys && q.list == list && q.threads == threads
      && forall a :: a in arenas ==> q.arenas[a].st == arenas[a].st
  }

  lemma ThreadlessListed(p: Pool, q: Pool, t: Tid, th: Thread)
    requires Listed(p) && SameStates(p, q)
    requires !ThreadOf(p, t).pc.Pushing? && !th.pc.Pushing?
    requires th.pc.Scanning? ==> forall a <- th.pc.rest :: a in p.list
    ensures Listed(SetThread(q, t, th))
  {
    var r := SetThread(q, t, th);
    forall b | BeingPushed(p, b) ensures BeingPushed(r, b) {
      var u :| u in p.threads && p.threads[u] == Thread(Some(b), Pushing);
      assert r.threads[u] == Thread(Some(b), Pushing);
    }
    forall b | BeingPushed(r, b) ensures BeingPushed(p, b) {
      var u :| u in r.threads && r.threads[u] == Thread(Some(b), Pushing);
      assert p.threads[u] == Thread(Some(b), Pushing);
    }
  }

  lemma ThreadlessFrees(p: Pool, q: Pool, t: Tid, th: Thread)
    requires FreesSound(p) && SameStates(p, q) && Freeing(th) == None
    ensures FreesSound(SetThread(q, t, th))
  {
    var r := SetThread(q, t, th);
    forall u | u in r.threads && Freeing(r.threads[u]) != None ensures Alive(r, Freeing(r.threads[u]).value) {
      var b :| b in p.arenas && Freeing(p.threads[u]).value in Live(p.arenas[b].st.chunks);
      assert Freeing(p.threads[u]).value in Live(r.arenas[b].st.chunks);
    }
    forall u | u in r.threads && r.threads[u].pc.Missing? ensures StillToAsk(r, r.threads[u].pc) {
      var b :| b in p.threads[u].pc.rest && b in p.arenas && p.threads[u].pc.ptr in Live(p.arenas[b].st.chunks);
      assert p.threads[u].pc.ptr in Live(r.arenas[b].st.chunks);
    }
  }

  lemma FlagKeepsStates(p: Pool, a: Aid, reserved: bool)
    requires a in p.arenas
    ensures SameStates(p, SetFlag(p, a, reserved))
  {
  }

  lemma SoundStates(p: Pool, q: Pool)
    requires ArenasSound(p.arenas) && SameStates(p, q)
    ensures ArenasSound(q.arenas)
  {
  }

  lemma ReserveReserved(p: Pool, t: Tid, a: Aid)
    requires Reserved(p) && ThreadOf(p, t).arena == None && a in p.arenas && !p.arenas[a].reserved
    ensures Reserved(SetThread(SetFlag(p, a, true), t, Thread(Some(a), Idle)))
  {
    assert forall u :: u in p.threads ==> p.threads[u].arena != Some(a);
  }

  /** Winning the test-and-set makes the thread the only holder. */
  lemma ReserveInv(p: Pool, t: Tid, a: Aid)
    requires PoolInv(p) && ThreadOf(p, t).arena == None && !ThreadOf(p, t).pc.Pushing?
    requires a in p.arenas && !p.arenas[a].reserved
    ensures PoolInv(SetThread(SetFlag(p, a, true), t, Thread(Some(a), Idle)))
  {
    var q := SetFlag(p, a, true);
    FlagKeepsStates(p, a, true);
    SoundStates(p, q);
    ThreadlessListed(p, q, t, Thread(Some(a), Idle));
    ThreadlessFrees(p, q, t, Thread(Some(a), Idle));
    ReserveReserved(p, t, a);
    ReserveFlagged(p, t, a);
  }

  lemma ReserveFlagged(p: Pool, t: Tid, a: Aid)
    requires Flagged(p) && ThreadOf(p, t).arena == None && a in p.arenas
    ensures Flagged(SetThread(SetFlag(p, a, true), t, Thread(Some(a), Idle)))
  {
    var q := SetThread(SetFlag(p, a, true), t, Thread(Some(a), Idle));
    assert q.threads[t].arena == Some(a);
    forall b | b in q.arenas && b != a && q.arenas[b].reserved ensures HasHolder(q, b) {
      var u :| u in p.threads && p.threads[u].arena == Some(b);
      assert q.threads[u].arena == Some(b);
    }
  }

  lemma ReleaseReserved(p: Pool, t: Tid, a: Aid)
    requires Reserved(p) && t in p.threads && p.threads[t].arena == Some(a)
    ensures a in p.arenas && Reserved(SetThread(SetFlag(p, a, false), t, Thread(None, Idle)))
  {
    assert forall u :: u in p.threads && u != t ==> p.threads[u].arena != Some(a);
  }

  lemma ReleaseFlagged(p: Pool, t: Tid, a: Aid)
    requires Flagged(p) && t in p.threads && p.threads[t].arena == Some(a) && a in p.arenas
    ensures Flagged(SetThread(SetFlag(p, a, false), t, Thread(None, Idle)))
  {
    var q := SetThread(SetFlag(p, a, false), t, Thread(None, Idle));
    forall b | b in q.arenas && q.arenas[b].reserved ensures HasHolder(q, b) {
      var u :| u in p.threads && p.threads[u].arena == Some(b);
      assert q.threads[u].arena == Some(b);
    }
  }

  lemma ReleaseInv(p: Pool, t: Tid, a: Aid)
    requires PoolInv(p) && t in p.threads && p.threads[t].pc.Leaving? && p.threads[t].arena == Some(a)
    ensures a in p.arenas && PoolInv(SetThread(SetFlag(p, a, false), t, Thread(None, Idle)))
  {
    ReleaseReserved(p, t, a);
    ReleaseFlagged(p, t, a);
    var q := SetFlag(p, a, false);
    FlagKeepsStates(p, a, false);
    SoundStates(p, q);
    ThreadlessListed(p, q, t, Thread(None, Idle));
    ThreadlessFrees(p, q, t, Thread(None, Idle));
  }

  lemma PushReserved(p: Pool, t: Tid, a: Aid)
    requires Reserved(p) && t in p.threads && p.threads[t] == Thread(Some(a), Pushing)
    ensures Reserved(SetThread(p.(list := [a] + p.list), t, Thread(Some(a), Idle)))
  {
  }

  lemma PushFlagged(p: Pool, t: Tid, a: Aid)
    requires Flagged(p) && t in p.threads && p.threads[t] == Thread(Some(a), Pushing)
    ensures Flagged(SetThread(p.(list := [a] + p.list), t, Thread(Some(a), Idle)))
  {
    FlaggedKept(p, SetThread(p.(list := [a] + p.list), t, Thread(Some(a), Idle)));
  }

  lemma PushInv(p: Pool, t: Tid, a: Aid)
    requires PoolInv(p) && t in p.threads && p.threads[t] == Thread(Some(a), Pushing)
    ensures PoolInv(SetThread(p.(list := [a] + p.list), t, Thread(Some(a), Idle)))
  {
    PushListed(p, t, a);
    PushFrees(p, t, a);
    PushReserved(p, t, a);
    PushFlagged(p, t, a);
  }

  lemma PushListed(p: Pool, t: Tid, a: Aid)
    requires Listed(p) && Reserved(p) && t in p.threads && p.threads[t] == Thread(Some(a), Pushing)
    ensures a !in p.list && Listed(SetThread(p.(list := [a] + p.list), t, Thread(Some(a), Idle)))
  {
    var q := SetThread(p.(list := [a] + p.list), t, Thread(Some(a), Idle));
    assert BeingPushed(p, a) && a in p.arenas;
    forall b | b in p.arenas ensures BeingPushed(q, b) <==> BeingPushed(p, b) && b != a {
      if BeingPushed(q, b) {
        var u :| u in q.threads && q.threads[u] == Thread(Some(b), Pushing);
        assert p.threads[u] == Thread(Some(b), Pushing);
      }
      if BeingPushed(p, b) && b != a {
        var u :| u in p.threads && p.threads[u] == Thread(Some(b), Pushing);
        assert q.threads[u] == Thread(Some(b), Pushing);
      }
    }
  }

  lemma PushFrees(p: Pool, t: Tid, a: Aid)
    requires FreesSound(p) && t in p.threads && p.threads[t] == Thread(Some(a), Pushing)
    ensures FreesSound(SetThread(p.(list := [a] + p.list), t, Thread(Some(a), Idle)))
  {
    var q := SetThread(p.(list := [a] + p.list), t, Thread(Some(a), Idle));
    forall u | u in q.threads && Freeing(q.threads[u]) != None ensures Alive(q, Freeing(q.threads[u]).value) {
      assert Alive(p, Freeing(q.threads[u]).value);
    }
    forall u | u in q.threads && q.threads[u].pc.Missing? ensures StillToAsk(q, q.threads[u].pc) {
      assert StillToAsk(p, q.threads[u].pc);
    }
  }

  lemma CreateSound(p: Pool, a: Aid, bs: nat, begin: int)
    requires ArenasSound(p.arenas) && a !in p.arenas && 1 <= bs <= 255 && ClearOfAll(p, bs, begin)
    ensures ArenasSound(p.arenas[a := PoolArena(true, NewArena(bs, begin))])
  {
    NewArenaInv(bs, begin);
    forall b | b in p.arenas
      ensures Apart(NewArena(bs, begin), p.arenas[b].st) && Apart(p.arenas[b].st, NewArena(bs, begin))
    {
      assert Clear(bs, p.arenas[b].st.chunks, begin);
    }
  }

  lemma CreateReserved(p: Pool, t: Tid, a: Aid, st: ArenaState)
    requires Reserved(p) && t in p.threads && a !in p.arenas
    ensures Reserved(SetThread(p.(arenas := p.arenas[a := PoolArena(true, st)]), t, Thread(Some(a), Pushing)))
  {
    assert forall u :: u in p.threads ==> p.threads[u].arena != Some(a);
  }

  lemma CreateInv(p: Pool, t: Tid, a: Aid, bs: nat, begin: int)
    requires PoolInv(p) && t in p.threads && p.threads[t].arena == None && p.threads[t].pc.Scanning?
    requires a !in p.arenas && 1 <= bs <= 255 && ClearOfAll(p, bs, begin)
    ensures PoolInv(SetThread(p.(arenas := p.arenas[a := PoolArena(true, NewArena(bs, begin))]), t,
                          Thread(Some(a), Pushing)))
  {
    NewArenaInv(bs, begin);
    CreateSound(p, a, bs, begin);
    CreateReserved(p, t, a, NewArena(bs, begin));
    CreateListed(p, t, a, bs, begin);
    CreateFrees(p, t, a, bs, begin);
    CreateFlagged(p, t, a, NewArena(bs, begin));
  }

  lemma CreateFlagged(p: Pool, t: Tid, a: Aid, st: ArenaState)
    requires Flagged(p) && t in p.threads && p.threads[t].arena == None && a !in p.arenas
    ensures Flagged(SetThread(p.(arenas := p.arenas[a := PoolArena(true, st)]), t, Thread(Some(a), Pushing)))
  {
    var q := SetThread(p.(arenas := p.arenas[a := PoolArena(true, st)]), t, Thread(Some(a), Pushing));
    assert q.threads[t].arena == Some(a);
    forall b | b in p.arenas && p.arenas[b].reserved ensures HasHolder(q, b) {
      var u :| u in p.threads && p.threads[u].arena == Some(b);
      assert q.threads[u].arena == Some(b);
    }
  }

  lemma CreateListed(p: Pool, t: Tid, a: Aid, bs: nat, begin: int)
    requires Listed(p) && t in p.threads && a !in p.arenas && !p.threads[t].pc.Pushing?
    requires Live(NewArena(bs, begin).chunks) == {}
    ensures Listed(SetThread(p.(arenas := p.arenas[a := PoolArena(true, NewArena(bs, begin))]), t,
                             Thread(Some(a), Pushing)))
  {
    var r := SetThread(p.(arenas := p.arenas[a := PoolArena(true, NewArena(bs, begin))]), t, Thread(Some(a), Pushing));
    assert r.threads[t] == Thread(Some(a), Pushing);
    forall b | b in p.arenas ensures BeingPushed(r, b) <==> BeingPushed(p, b) {
      if BeingPushed(r, b) {
        var u :| u in r.threads && r.threads[u] == Thread(Some(b), Pushing);
        assert p.threads[u] == Thread(Some(b), Pushing);
      }
      if BeingPushed(p, b) {
        var u :| u in p.threads && p.threads[u] == Thread(Some(b), Pushing);
        assert r.threads[u] == Thread(Some(b), Pushing);
      }
    }
  }

  lemma CreateFrees(p: Pool, t: Tid, a: Aid, bs: nat, begin: int)
    requires FreesSound(p) && t in p.threads && a !in p.arenas
    ensures FreesSound(SetThread(p.(arenas := p.arenas[a := PoolArena(true, NewArena(bs, begin))]), t,
                                 Thread(Some(a), Pushing)))
  {
    var r := SetThread(p.(arenas := p.arenas[a := PoolArena(true, NewArena(bs, begin))]), t, Thread(Some(a), Pushing));
    forall u | u in r.threads && Freeing(r.threads[u]) != None ensures Alive(r, Freeing(r.threads[u]).value) {
      var b :| b in p.arenas && Freeing(p.threads[u]).value in Live(p.arenas[b].st.chunks);
      assert Freeing(p.threads[u]).value in Live(r.arenas[b].st.chunks);
    }
    forall u | u in r.threads && r.threads[u].pc.Missing? ensures StillToAsk(r, r.threads[u].pc) {
      var b :| b in p.threads[u].pc.rest && b in p.arenas && p.threads[u].pc.ptr in Live(p.arenas[b].st.chunks);
      assert p.threads[u].pc.ptr in Live(r.arenas[b].st.chunks);
    }
  }

  predicate OfReserving(act: Action) {
    act.StartReserve? || act.TryReserve? || act.CreateArena? || act.PushArena? || act.ReleaseArena?
  }

  lemma ReservingInv(p: Pool, act: Action)
    requires PoolInv(p) && Enabled(p, act) && OfReserving(act)
    ensures PoolInv(Apply(p, act))
  {
    var t := act.t;
    var th := ThreadOf(p, t);
    assert t in p.threads ==> Fits(th);
    match act
    case StartReserve(_) => ScanInv(p, t, p.list);
    case TryReserve(_) =>
      var a := th.pc.rest[0];
      assert a in p.list && a in p.arenas;
      if p.arenas[a].reserved { ScanInv(p, t, th.pc.rest[1..]); } else { ReserveInv(p, t, a); }
    case CreateArena(_, a, bs, begin) => CreateInv(p, t, a, bs, begin);
    case PushArena(_) => PushInv(p, t, th.arena.value);
    case ReleaseArena(_) => ReleaseInv(p, t, th.arena.value);
  }

  predicate OfFreeing(act: Action) {
    act.FreeOwn? || act.LoadList? || act.AskNext?
  }

  lemma FreeOwnAsks(p: Pool, t: Tid, ptr: int)
    requires PoolInv(p) && Enabled(p, FreeOwn(t, ptr))
    ensures t in p.threads && p.threads[t].arena.Some? && p.threads[t].pc.Idle? && p.threads[t].arena.value in p.arenas
    ensures Apply(p, FreeOwn(t, ptr)) == Asked(p, t, p.threads[t].arena.value, ptr, Missed(ptr))
  {
  }

  lemma FreeOwnStep(p: Pool, t: Tid, ptr: int)
    requires PoolInv(p) && Enabled(p, FreeOwn(t, ptr))
    ensures PoolInv(Apply(p, FreeOwn(t, ptr)))
  {
    FreeOwnAsks(p, t, ptr);
    FreeOwnInv(p, t, ptr);
  }

  lemma LoadListStep(p: Pool, t: Tid)
    requires PoolInv(p) && Enabled(p, LoadList(t))
    ensures PoolInv(Apply(p, LoadList(t)))
  {
    LoadListInv(p, t, p.threads[t].pc.ptr);
  }

  lemma AskNextStep(p: Pool, t: Tid)
    requires PoolInv(p) && Enabled(p, AskNext(t))
    ensures PoolInv(Apply(p, AskNext(t)))
  {
    var pc := p.threads[t].pc;
    var b := AskNextReaches(p, t, pc.ptr, pc.rest);
    assert Apply(p, AskNext(t)) == Asked(p, t, pc.rest[0], pc.ptr, Missing(pc.ptr, pc.rest[1..]));
  }

  lemma FreeingInv(p: Pool, act: Action)
    requires PoolInv(p) && Enabled(p, act) && OfFreeing(act)
    ensures PoolInv(Apply(p, act))
  {
    match act
    case FreeOwn(t, ptr) => FreeOwnStep(p, t, ptr);
    case LoadList(t) => LoadListStep(p, t);
    case AskNext(t) => AskNextStep(p, t);
  }

  lemma CurrentTries(p: Pool, t: Tid, k: nat)
    requires PoolInv(p) && Enabled(p, MallocCurrent(t)) && k == Tried(p, MallocCurrent(t))
    ensures t in p.threads && p.threads[t].arena.Some? && (p.threads[t].pc.Idle? || p.threads[t].pc.Searching?)
    ensures k < |Own(p, t).chunks| && Apply(p, MallocCurrent(t)) == TryChunk(p, t, k, 0)
  {
  }

  lemma MallocCurrentStep(p: Pool, t: Tid, k: nat)
    requires PoolInv(p) && Enabled(p, MallocCurrent(t)) && k == Tried(p, MallocCurrent(t))
    ensures PoolInv(Apply(p, MallocCurrent(t)))
  {
    CurrentTries(p, t, k);
    TryChunkInv(p, t, k, 0);
  }

  lemma NextIs(p: Pool, t: Tid, k: nat)
    requires PoolInv(p) && Enabled(p, MallocNext(t)) && k == Tried(p, MallocNext(t))
    ensures t in p.threads && p.threads[t].arena.Some? && p.threads[t].pc.Searching? && k < |Own(p, t).chunks|
  {
  }

  lemma NextTries(p: Pool, t: Tid, k: nat, next: nat)
    requires PoolInv(p) && Enabled(p, MallocNext(t)) && k == Tried(p, MallocNext(t)) && next == k + 1
    requires t in p.threads && p.threads[t].arena.Some? && k < |Own(p, t).chunks|
    ensures Apply(p, MallocNext(t)) == TryChunk(p, t, k, next)
  {
  }

  lemma MallocNextStep(p: Pool, t: Tid, k: nat, next: nat)
    requires PoolInv(p) && Enabled(p, MallocNext(t)) && k == Tried(p, MallocNext(t)) && next == k + 1
    ensures PoolInv(Apply(p, MallocNext(t)))
  {
    NextIs(p, t, k);
    NextTries(p, t, k, next);
    TryChunkInv(p, t, k, next);
  }

  /** Every action keeps the invariant. */
  lemma StepInv(p: Pool, act: Action)
    requires PoolInv(p) && Enabled(p, act)
    ensures PoolInv(Apply(p, act))
  {
    if OfReserving(act) {
      ReservingInv(p, act);
    } else if OfFreeing(act) {
      FreeingInv(p, act);
    } else {
      match act
      case MallocCurrent(t) => MallocCurrentStep(p, t, Tried(p, act));
      case MallocNext(t) => MallocNextStep(p, t, Tried(p, act), Tried(p, act) + 1);
      case MallocExtend(t, begin) => ExtendInv(p, t, begin);
      case ShrinkArena(t, begin) => ShrinkInv(p, t, begin);
    }
  }
}
