/**
 An arena as a value: its chunks in address order, the chunk it allocates from
 and the chunk it frees to, both named by their first block's address.

 The operations here are what the arena's methods are proved to do; the
 theorems say what they mean for the set of live blocks.
 */
module ArenaStates {
  import opened Chunks

  datatype ArenaState = ArenaState(blockSize: nat, chunks: seq<ChunkState>, alloc: int, freeing: int)

  /** Chunks of one block size, in order, each ending strictly before the next begins. */
  ghost predicate Laid(blockSize: nat, cs: seq<ChunkState>) {
    && 1 <= blockSize <= 255
    && (forall k :: 0 <= k < |cs| ==> cs[k].Ok() && cs[k].blockSize == blockSize)
    && (forall j, k :: 0 <= j < k < |cs| ==> cs[j].End() < cs[k].begin)
  }

  ghost predicate Has(cs: seq<ChunkState>, begin: int) {
    exists k :: 0 <= k < |cs| && cs[k].begin == begin
  }

  ghost predicate Inv(a: ArenaState) {
    Laid(a.blockSize, a.chunks) && Has(a.chunks, a.alloc) && Has(a.chunks, a.freeing)
  }

  /** The blocks in use, by address. */
  ghost function Live(cs: seq<ChunkState>): set<int> {
    set k: nat, p | k < |cs| && p in cs[k].Live() :: p
  }

  /** How many blocks the free counts say are in use. */
  function Used(cs: seq<ChunkState>): int {
    if cs == [] then 0 else MAX_BLOCKS - |cs[0].free| + Used(cs[1..])
  }

  /** The closed address range a chunk is indexed by touches none of the chunks. */
  ghost predicate Clear(blockSize: nat, cs: seq<ChunkState>, begin: int) {
    forall k :: 0 <= k < |cs| ==>
      cs[k].End() < begin || begin + MAX_BLOCKS * blockSize < cs[k].begin
  }

  /** Chunks are system allocations with a header in front, so allocations apart keep ranges clear. */
  lemma HeadersKeepClear(header: nat, blockSize: nat, cs: seq<ChunkState>, begin: int)
    requires header >= 1
    requires forall k :: 0 <= k < |cs| ==>
      cs[k].End() <= begin - header || begin + MAX_BLOCKS * blockSize <= cs[k].begin - header
    ensures Clear(blockSize, cs, begin)
  {
  }

  // -------------------------------------------------------------- operations

  /** The position of the chunk that begins at `begin`. */
  function Find(cs: seq<ChunkState>, begin: int): (k: nat)
    requires Has(cs, begin)
    ensures k < |cs| && cs[k].begin == begin
  {
    if cs[0].begin == begin then 0
    else
      assert Has(cs[1..], begin) by {
        var k :| 0 <= k < |cs| && cs[k].begin == begin;
        assert cs[1..][k - 1].begin == begin;
      }
      1 + Find(cs[1..], begin)
  }

  /** The first chunk with a free block, or the number of chunks. */
  function FirstFree(cs: seq<ChunkState>): (k: nat)
    ensures k <= |cs| && (k < |cs| ==> cs[k].free != [])
    ensures forall j :: 0 <= j < k ==> cs[j].free == []
  {
    if cs == [] || cs[0].free != [] then 0 else 1 + FirstFree(cs[1..])
  }

  /** The chunk whose closed address range contains a pointer, or the number of chunks. */
  function Owner(cs: seq<ChunkState>, ptr: int): (k: nat)
    ensures k <= |cs| && (k < |cs| ==> cs[k].begin <= ptr <= cs[k].End())
    ensures forall j :: 0 <= j < k ==> !(cs[j].begin <= ptr <= cs[j].End())
  {
    if cs == [] || cs[0].begin <= ptr <= cs[0].End() then 0 else 1 + Owner(cs[1..], ptr)
  }

  /** Puts a chunk into the order. */
  function Placed(cs: seq<ChunkState>, c: ChunkState): seq<ChunkState> {
    if cs == [] || c.begin < cs[0].begin then [c] + cs else [cs[0]] + Placed(cs[1..], c)
  }

  function AllocateIn(a: ArenaState, k: nat): ArenaState
    requires k < |a.chunks| && a.chunks[k].free != []
  {
    a.(chunks := a.chunks[k := a.chunks[k].Allocated()], alloc := a.chunks[k].begin)
  }

  function BlockIn(a: ArenaState, k: nat): int
    requires k < |a.chunks| && a.chunks[k].free != []
  {
    a.chunks[k].Addr(a.chunks[k].free[0])
  }

  /** A new chunk, its first block already handed out. */
  function Extend(a: ArenaState, begin: int): ArenaState {
    a.(chunks := Placed(a.chunks, NewState(begin, a.blockSize).Allocated()), alloc := begin, freeing := begin)
  }

  /** The chunk to allocate from: the current one, or else the first with a free block. */
  function Choice(a: ArenaState): (k: nat)
    requires Has(a.chunks, a.alloc)
    ensures k <= |a.chunks| && (k < |a.chunks| ==> a.chunks[k].free != [])
    ensures k == |a.chunks| ==> forall j :: 0 <= j < |a.chunks| ==> a.chunks[j].free == []
  {
    var k := Find(a.chunks, a.alloc);
    if a.chunks[k].free != [] then k else FirstFree(a.chunks)
  }

  /** `malloc`; `begin` is where the system would put a new chunk. */
  function Malloc(a: ArenaState, begin: int): (ArenaState, int)
    requires Has(a.chunks, a.alloc)
  {
    var k := Choice(a);
    if k < |a.chunks| then (AllocateIn(a, k), BlockIn(a, k)) else (Extend(a, begin), begin)
  }

  function ReleaseIn(a: ArenaState, k: nat, ptr: int): ArenaState
    requires k < |a.chunks| && a.chunks[k].Within(ptr) && a.chunks[k].blockSize > 0
  {
    a.(chunks := a.chunks[k := a.chunks[k].Released(ptr)], freeing := a.chunks[k].begin)
  }

  /** `free`: the current chunk, or else the chunk the pointer is indexed under; whether one was found. */
  function Free(a: ArenaState, ptr: int): (ArenaState, bool)
    requires Has(a.chunks, a.freeing) && Laid(a.blockSize, a.chunks)
  {
    var f := Find(a.chunks, a.freeing);
    if a.chunks[f].Within(ptr) then (ReleaseIn(a, f, ptr), true)
    else
      var k := Owner(a.chunks, ptr);
      if k == |a.chunks| then (a, false)
      else if a.chunks[k].Within(ptr) then (ReleaseIn(a, k, ptr), true)
      else (a, true)
  }

  /** The chunks that have a block in use. */
  function Occupied(cs: seq<ChunkState>): seq<ChunkState> {
    if cs == [] then []
    else (if |cs[0].free| == MAX_BLOCKS then [] else [cs[0]]) + Occupied(cs[1..])
  }

  function Shrink(a: ArenaState, begin: int): ArenaState {
    var cs := Occupied(a.chunks);
    if cs == [] then ArenaState(a.blockSize, [NewState(begin, a.blockSize)], begin, begin)
    else ArenaState(a.blockSize, cs, cs[0].begin, cs[0].begin)
  }

  function NewArena(blockSize: nat, begin: int): ArenaState {
    ArenaState(blockSize, [NewState(begin, blockSize)], begin, begin)
  }

  // ------------------------------------------------------------ live blocks

  /** A live block lies in the chunk it belongs to and in no other, not even at its very end. */
  lemma LiveInOne(bs: nat, cs: seq<ChunkState>, k: nat, p: int)
    requires Laid(bs, cs) && k < |cs| && p in cs[k].Live()
    ensures cs[k].Within(p) && p + bs <= cs[k].End()
    ensures forall j :: 0 <= j < |cs| && j != k ==> !(cs[j].begin <= p <= cs[j].End())
    ensures Owner(cs, p) == k
  {
    LiveWithin(cs[k], p);
    forall j | 0 <= j < |cs| && j != k ensures !(cs[j].begin <= p <= cs[j].End()) {
      if j < k {
        assert cs[j].End() < cs[k].begin;
      } else {
        assert cs[k].End() < cs[j].begin;
      }
    }
  }

  /** Live blocks of an arena never overlap, and each lies inside an indexed chunk. */
  lemma LiveBlocksApart(bs: nat, cs: seq<ChunkState>, p: int, q: int)
    requires Laid(bs, cs) && p in Live(cs) && q in Live(cs) && p != q
    ensures p + bs <= q || q + bs <= p
    ensures Owner(cs, p) < |cs| && cs[Owner(cs, p)].Within(p) && p + bs <= cs[Owner(cs, p)].End()
  {
    var j: nat :| j < |cs| && p in cs[j].Live();
    var k: nat :| k < |cs| && q in cs[k].Live();
    LiveInOne(bs, cs, j, p);
    LiveInOne(bs, cs, k, q);
    if j == k {
      BlocksApart(cs[j], p, q);
    } else if j < k {
      assert cs[j].End() < cs[k].begin;
    } else {
      assert cs[k].End() < cs[j].begin;
    }
  }

  lemma LiveSplit(cs: seq<ChunkState>, ds: seq<ChunkState>)
    ensures Live(cs + ds) == Live(cs) + Live(ds)
  {
    var es := cs + ds;
    forall p | p in Live(cs) ensures p in Live(es) {
      var k: nat :| k < |cs| && p in cs[k].Live();
      assert es[k] == cs[k];
    }
    forall p | p in Live(ds) ensures p in Live(es) {
      var k: nat :| k < |ds| && p in ds[k].Live();
      assert es[|cs| + k] == ds[k];
    }
  }

  lemma LiveOfOne(c: ChunkState)
    ensures Live([c]) == c.Live()
  {
    forall p | p in c.Live() ensures p in Live([c]) {
      assert p in [c][0].Live();
    }
  }

  /** The free counts account for every live block. */
  lemma {:induction false} LiveUsed(bs: nat, cs: seq<ChunkState>)
    requires Laid(bs, cs)
    ensures |Live(cs)| == Used(cs)
  {
    if cs == [] {
      assert Live(cs) == {};
    } else {
      var c, rest := cs[0], cs[1..];
      LiveUsed(bs, rest);
      LiveCounted(c);
      assert cs == [c] + rest;
      LiveSplit([c], rest);
      LiveOfOne(c);
      forall p | p in Live(rest) ensures p !in c.Live() {
        HeadApart(bs, cs, p);
      }
      assert Live(rest) !! c.Live();
    }
  }

  lemma HeadApart(bs: nat, cs: seq<ChunkState>, p: int)
    requires Laid(bs, cs) && cs != [] && p in Live(cs[1..])
    ensures p !in cs[0].Live()
  {
    var k: nat :| k < |cs[1..]| && p in cs[1..][k].Live();
    LiveInOne(bs, cs, k + 1, p);
    if p in cs[0].Live() {
      LiveWithin(cs[0], p);
    }
  }

  /** Replacing one chunk by one with the same bounds keeps the layout; only its own blocks change. */
  lemma UpdateChunk(bs: nat, cs: seq<ChunkState>, k: nat, d: ChunkState)
    requires Laid(bs, cs) && k < |cs| && d.Ok() && d.begin == cs[k].begin && d.blockSize == bs
    ensures Laid(bs, cs[k := d])
    ensures forall b :: Has(cs, b) ==> Has(cs[k := d], b)
    ensures Live(cs[k := d]) == (Live(cs) - cs[k].Live()) + d.Live()
  {
    var ds := cs[k := d];
    forall b | Has(cs, b) ensures Has(ds, b) {
      var j :| 0 <= j < |cs| && cs[j].begin == b;
      assert ds[j].begin == b;
    }
    forall p | p in Live(ds) ensures p in (Live(cs) - cs[k].Live()) + d.Live() {
      var j: nat :| j < |ds| && p in ds[j].Live();
      if j != k {
        assert p in cs[j].Live();
        LiveInOne(bs, cs, j, p);
        if p in cs[k].Live() {
          LiveWithin(cs[k], p);
        }
      }
    }
    forall p | p in (Live(cs) - cs[k].Live()) + d.Live() ensures p in Live(ds) {
      if p in d.Live() {
        assert ds[k] == d;
      } else {
        var j: nat :| j < |cs| && p in cs[j].Live();
        assert ds[j] == cs[j];
      }
    }
  }

  // ------------------------------------------------------------- what malloc does

  lemma NewStateOk(begin: int, bs: nat)
    requires 1 <= bs <= 255
    ensures var c := NewState(begin, bs); c.Ok() && c.Live() == {} && c.free != [] && c.free[0] == 0
    ensures var d := NewState(begin, bs).Allocated(); d.Ok() && d.Live() == {begin}
  {
    var c := NewState(begin, bs);
    LiveCounted(c);
    AllocateAddsOne(c);
    assert c.Addr(0) == begin;
  }

  lemma NewArenaInv(bs: nat, begin: int)
    requires 1 <= bs <= 255
    ensures Inv(NewArena(bs, begin)) && Live(NewArena(bs, begin).chunks) == {}
    ensures Placed([], NewState(begin, bs)) == NewArena(bs, begin).chunks
  {
    NewStateOk(begin, bs);
    LiveOfOne(NewState(begin, bs));
    assert NewArena(bs, begin).chunks[0].begin == begin;
  }

  /** Placing a chunk opens one gap and moves nothing else. */
  lemma {:induction false} PlacedIn(cs: seq<ChunkState>, c: ChunkState) returns (k: nat)
    ensures k <= |cs| && Placed(cs, c) == cs[..k] + [c] + cs[k..]
  {
    if cs == [] || c.begin < cs[0].begin {
      k := 0;
    } else {
      k := PlacedIn(cs[1..], c);
      k := k + 1;
      assert cs[..k] == [cs[0]] + cs[1..][..k - 1];
    }
  }

  /** The order fixes the position. */
  lemma {:induction false} PlacedThere(cs: seq<ChunkState>, c: ChunkState, k: nat)
    requires k <= |cs|
    requires forall j :: 0 <= j < k ==> cs[j].begin < c.begin
    requires forall j :: k <= j < |cs| ==> c.begin < cs[j].begin
    ensures Placed(cs, c) == cs[..k] + [c] + cs[k..]
  {
    if k > 0 {
      PlacedThere(cs[1..], c, k - 1);
      assert cs[..k] == [cs[0]] + cs[1..][..k - 1];
    }
  }

  lemma {:induction false} PlacedLive(cs: seq<ChunkState>, c: ChunkState)
    ensures Live(Placed(cs, c)) == Live(cs) + c.Live()
  {
    LiveOfOne(c);
    if cs == [] || c.begin < cs[0].begin {
      LiveSplit([c], cs);
    } else {
      PlacedLive(cs[1..], c);
      LiveSplit([cs[0]], Placed(cs[1..], c));
      LiveSplit([cs[0]], cs[1..]);
      assert cs == [cs[0]] + cs[1..];
    }
  }

  lemma PlacedHas(cs: seq<ChunkState>, c: ChunkState, b: int)
    requires Has(cs, b) || b == c.begin
    ensures Has(Placed(cs, c), b)
  {
    var k := PlacedIn(cs, c);
    var ds := Placed(cs, c);
    if b == c.begin {
      assert ds[k].begin == b;
    } else {
      var j :| 0 <= j < |cs| && cs[j].begin == b;
      assert ds[if j < k then j else j + 1] == cs[j];
    }
  }

  lemma {:induction false} PlacedLaid(bs: nat, cs: seq<ChunkState>, c: ChunkState)
    requires Laid(bs, cs) && Clear(bs, cs, c.begin) && c.Ok() && c.blockSize == bs
    ensures Laid(bs, Placed(cs, c)) && |Placed(cs, c)| == |cs| + 1
    ensures forall d :: d in Placed(cs, c) ==> d == c || d in cs
  {
    if cs == [] {
    } else if c.begin < cs[0].begin {
      assert c.End() < cs[0].begin;
      LaidAfter(bs, c, cs);
    } else {
      var rest := cs[1..];
      PlacedLaid(bs, rest, c);
      forall d | d in Placed(rest, c) ensures cs[0].End() < d.begin {
        if d != c {
          var j :| 0 <= j < |rest| && rest[j] == d;
          assert cs[j + 1] == d;
        }
      }
      LaidAfter(bs, cs[0], Placed(rest, c));
    }
  }

  lemma LaidAfter(bs: nat, c: ChunkState, cs: seq<ChunkState>)
    requires Laid(bs, cs) && c.Ok() && c.blockSize == bs
    requires cs != [] ==> c.End() < cs[0].begin
    ensures Laid(bs, [c] + cs)
  {
    forall k | 0 <= k < |cs| ensures c.End() < cs[k].begin {
      assert k > 0 ==> cs[0].End() < cs[k].begin;
    }
  }

  lemma AllocateInAdds(a: ArenaState, k: nat)
    requires Inv(a) && k < |a.chunks| && a.chunks[k].free != []
    ensures Inv(AllocateIn(a, k)) && BlockIn(a, k) !in Live(a.chunks)
    ensures Live(AllocateIn(a, k).chunks) == Live(a.chunks) + {BlockIn(a, k)}
  {
    var c, p := a.chunks[k], BlockIn(a, k);
    AllocateAddsOne(c);
    UpdateChunk(a.blockSize, a.chunks, k, c.Allocated());
    assert Has(a.chunks, c.begin);
    IndexOfAddr(c, c.free[0]);
    if p in Live(a.chunks) {
      var j: nat :| j < |a.chunks| && p in a.chunks[j].Live();
      LiveInOne(a.blockSize, a.chunks, j, p);
    }
    assert c.Live() <= Live(a.chunks);
  }

  lemma ExtendAdds(a: ArenaState, begin: int)
    requires Inv(a) && Clear(a.blockSize, a.chunks, begin)
    ensures Inv(Extend(a, begin)) && begin !in Live(a.chunks)
    ensures Live(Extend(a, begin).chunks) == Live(a.chunks) + {begin}
  {
    NewStateOk(begin, a.blockSize);
    var c := NewState(begin, a.blockSize).Allocated();
    PlacedLaid(a.blockSize, a.chunks, c);
    PlacedLive(a.chunks, c);
    PlacedHas(a.chunks, c, begin);
    if begin in Live(a.chunks) {
      var j: nat :| j < |a.chunks| && begin in a.chunks[j].Live();
      LiveInOne(a.blockSize, a.chunks, j, begin);
    }
  }

  /**
   `malloc` hands out one block that was not in use and changes no other; it
   takes a new chunk only when every indexed chunk is full.  The chunk of the
   block is remembered for allocation, which stays with the same chunk while it
   has room and else goes to the lowest one that has; the chunk remembered for
   release changes only to a new one.
   */
  lemma MallocAddsOne(a: ArenaState, begin: int)
    requires Inv(a) && Clear(a.blockSize, a.chunks, begin)
    ensures var (b, p) := Malloc(a, begin);
      && Inv(b) && p !in Live(a.chunks) && Live(b.chunks) == Live(a.chunks) + {p}
      && |a.chunks| <= |b.chunks| <= |a.chunks| + 1
      && (|b.chunks| > |a.chunks| ==> forall k :: 0 <= k < |a.chunks| ==> a.chunks[k].free == [])
    ensures var (b, p) := Malloc(a, begin);
      && OwnedFrom(b.chunks, p, b.alloc)
      && (if a.chunks[Find(a.chunks, a.alloc)].free != [] then b.alloc == a.alloc
          else forall c <- a.chunks :: c.free != [] ==> b.alloc <= c.begin)
      && b.freeing == if |b.chunks| > |a.chunks| then b.alloc else a.freeing
  {
    var k := Choice(a);
    if k < |a.chunks| {
      AllocateInAdds(a, k);
      AllocateInOwned(a, k);
    } else {
      ExtendAdds(a, begin);
      NewStateOk(begin, a.blockSize);
      PlacedLaid(a.blockSize, a.chunks, NewState(begin, a.blockSize).Allocated());
      ExtendOwned(a, begin);
    }
  }

  /** The chunk that a block is in use in begins at `begin`. */
  ghost predicate OwnedFrom(cs: seq<ChunkState>, p: int, begin: int) {
    exists k: nat :: k < |cs| && p in cs[k].Live() && cs[k].begin == begin
  }

  lemma AllocateInOwned(a: ArenaState, k: nat)
    requires Inv(a) && k < |a.chunks| && a.chunks[k].free != []
    ensures OwnedFrom(AllocateIn(a, k).chunks, BlockIn(a, k), a.chunks[k].begin)
  {
    AllocateAddsOne(a.chunks[k]);
    var d := AllocateIn(a, k).chunks[k];
    assert BlockIn(a, k) in d.Live() && d.begin == a.chunks[k].begin;
  }

  lemma ExtendOwned(a: ArenaState, begin: int)
    requires 1 <= a.blockSize <= 255
    ensures OwnedFrom(Extend(a, begin).chunks, begin, begin)
  {
    var c := NewState(begin, a.blockSize).Allocated();
    NewStateOk(begin, a.blockSize);
    var k := PlacedIn(a.chunks, c);
    assert Extend(a, begin).chunks[k] == c;
  }

  // --------------------------------------------------------------- what free does

  /** A pointer outside every indexed range is turned away, and nothing changes. */
  lemma FreeForeign(a: ArenaState, ptr: int)
    requires Inv(a) && Owner(a.chunks, ptr) == |a.chunks|
    ensures Free(a, ptr) == (a, false)
  {
  }

  /** The end of a chunk is in its indexed range but not in the chunk: it is reported freed, and nothing changes. */
  lemma FreePastEnd(a: ArenaState, k: nat)
    requires Inv(a) && k < |a.chunks|
    ensures Free(a, a.chunks[k].End()) == (a, true)
  {
    var ptr := a.chunks[k].End();
    OwnerIs(a.blockSize, a.chunks, ptr, k);
    var f := Find(a.chunks, a.freeing);
    if a.chunks[f].Within(ptr) {
      OwnerIs(a.blockSize, a.chunks, ptr, f);
    }
  }

  /** The program frees only blocks it holds. */
  ghost predicate Freeable(a: ArenaState, ptr: int) {
    forall k :: 0 <= k < |a.chunks| && a.chunks[k].Within(ptr) ==> ptr in a.chunks[k].Live()
  }

  lemma ReleaseInRemoves(a: ArenaState, k: nat, ptr: int)
    requires Inv(a) && k < |a.chunks| && ptr in a.chunks[k].Live() && a.chunks[k].Within(ptr)
    ensures Inv(ReleaseIn(a, k, ptr)) && Live(ReleaseIn(a, k, ptr).chunks) == Live(a.chunks) - {ptr}
  {
    var c := a.chunks[k];
    ReleaseRemovesOne(c, ptr);
    UpdateChunk(a.blockSize, a.chunks, k, c.Released(ptr));
    assert Has(a.chunks, c.begin);
    assert c.Live() <= Live(a.chunks);
  }

  /** An address lies in the closed range of one chunk at most. */
  lemma OwnerIs(bs: nat, cs: seq<ChunkState>, ptr: int, k: nat)
    requires Laid(bs, cs) && k < |cs| && cs[k].begin <= ptr <= cs[k].End()
    ensures Owner(cs, ptr) == k
  {
  }

  /**
   Freeing a live block ends its life and touches no other.  Its chunk is
   remembered for release; the one remembered for allocation stays.
   */
  lemma FreeRemovesOne(a: ArenaState, ptr: int)
    requires Inv(a) && ptr in Live(a.chunks)
    ensures var (b, ok) := Free(a, ptr);
      && ok && Inv(b) && Live(b.chunks) == Live(a.chunks) - {ptr} && |b.chunks| == |a.chunks|
      && OwnedFrom(a.chunks, ptr, b.freeing) && b.alloc == a.alloc
  {
    var k: nat :| k < |a.chunks| && ptr in a.chunks[k].Live();
    LiveInOne(a.blockSize, a.chunks, k, ptr);
    LiveWithin(a.chunks[k], ptr);
    assert Free(a, ptr) == (ReleaseIn(a, k, ptr), true);
    ReleaseInRemoves(a, k, ptr);
  }

  // ------------------------------------------------------------- what shrink does

  lemma {:induction false} OccupiedMembers(cs: seq<ChunkState>)
    requires forall k :: 0 <= k < |cs| ==> cs[k].Ok()
    ensures forall c :: c in Occupied(cs) <==> c in cs && c.Live() != {}
  {
    if cs != [] {
      OccupiedMembers(cs[1..]);
      LiveCounted(cs[0]);
      assert cs == [cs[0]] + cs[1..];
    }
  }

  lemma {:induction false} OccupiedLaid(bs: nat, cs: seq<ChunkState>)
    requires Laid(bs, cs)
    ensures Laid(bs, Occupied(cs))
  {
    if cs != [] {
      var c, kept := cs[0], Occupied(cs[1..]);
      OccupiedLaid(bs, cs[1..]);
      OccupiedMembers(cs[1..]);
      forall k | 0 <= k < |kept| ensures c.End() < kept[k].begin {
        assert kept[k] in kept;
        var j :| 0 <= j < |cs[1..]| && cs[1..][j] == kept[k];
        assert cs[j + 1] == kept[k];
      }
    }
  }

  lemma LiveMembers(cs: seq<ChunkState>, ds: seq<ChunkState>)
    requires forall c <- cs :: c.Live() == {} || c in ds
    ensures Live(cs) <= Live(ds)
  {
    forall p | p in Live(cs) ensures p in Live(ds) {
      var k: nat :| k < |cs| && p in cs[k].Live();
      var c := cs[k];
      assert c in cs;
      var j :| 0 <= j < |ds| && ds[j] == c;
    }
  }

  lemma OccupiedLive(cs: seq<ChunkState>)
    requires forall k :: 0 <= k < |cs| ==> cs[k].Ok()
    ensures Live(Occupied(cs)) == Live(cs)
  {
    OccupiedMembers(cs);
    LiveMembers(cs, Occupied(cs));
    LiveMembers(Occupied(cs), cs);
  }

  lemma {:induction false} OccupiedStep(cs: seq<ChunkState>, c: ChunkState)
    ensures Occupied(cs + [c]) == Occupied(cs) + (if |c.free| == MAX_BLOCKS then [] else [c])
  {
    if cs != [] {
      OccupiedStep(cs[1..], c);
      assert (cs + [c])[1..] == cs[1..] + [c];
    }
  }

  /** The next chunk in order goes to the end. */
  lemma NextPlaced(bs: nat, cs: seq<ChunkState>, k: nat)
    requires Laid(bs, cs) && k < |cs|
    ensures Laid(bs, cs[..k]) && Clear(bs, cs[..k], cs[k].begin) && Placed(cs[..k], cs[k]) == cs[..k + 1]
  {
    assert forall j :: 0 <= j < k ==> cs[j].End() < cs[k].begin;
    PlacedThere(cs[..k], cs[k], k);
  }

  /**
   `shrink` keeps every live block, keeps exactly the chunks that have one,
   and leaves one new chunk when none does; the first chunk is remembered for
   both purposes.
   */
  lemma ShrinkKeepsLive(a: ArenaState, begin: int)
    requires Inv(a)
    ensures var b := Shrink(a, begin);
      && Inv(b) && Live(b.chunks) == Live(a.chunks)
      && (Live(a.chunks) != {} ==> forall c :: c in b.chunks <==> c in a.chunks && c.Live() != {})
      && (Live(a.chunks) == {} ==> b.chunks == [NewState(begin, a.blockSize)])
      && b.alloc == b.freeing == b.chunks[0].begin
  {
    OccupiedMembers(a.chunks);
    OccupiedLaid(a.blockSize, a.chunks);
    OccupiedLive(a.chunks);
    NewStateOk(begin, a.blockSize);
    LiveOfOne(NewState(begin, a.blockSize));
    var b := Shrink(a, begin);
    assert Has(b.chunks, b.chunks[0].begin);
    var cs := Occupied(a.chunks);
    if cs != [] {
      var p :| p in cs[0].Live();
      assert p in Live(cs);
    }
  }
}
