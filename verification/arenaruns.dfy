/**
 Whole runs of one arena: any sequence of `malloc`, `free` and `shrink` that
 the program and the system may make.
 */
module ArenaRuns {
  import opened Chunks
  import opened ArenaStates

  /** `begin` is where the system would place a chunk if the operation needs one. */
  datatype Op = DoMalloc(begin: int) | DoFree(ptr: int) | DoShrink(begin: int)

  /** The system places chunks clear of those in use; the program frees blocks it holds. */
  ghost predicate Allowed(a: ArenaState, op: Op) {
    match op
    case DoMalloc(begin) => Clear(a.blockSize, a.chunks, begin)
    case DoFree(ptr) => ptr in Live(a.chunks)
    case DoShrink(_) => true
  }

  ghost function Step(a: ArenaState, op: Op): ArenaState
    requires Inv(a)
  {
    match op
    case DoMalloc(begin) => Malloc(a, begin).0
    case DoFree(ptr) => Free(a, ptr).0
    case DoShrink(begin) => Shrink(a, begin)
  }

  /** What the program holds after an operation, by its own account. */
  ghost function Held(a: ArenaState, op: Op, held: set<int>): set<int>
    requires Inv(a)
  {
    match op
    case DoMalloc(begin) => held + {Malloc(a, begin).1}
    case DoFree(ptr) => held - {ptr}
    case DoShrink(_) => held
  }

  /** Mallocs less frees. */
  function Net(ops: seq<Op>): int {
    if ops == [] then 0
    else (match ops[0] case DoMalloc(_) => 1 case DoFree(_) => -1 case DoShrink(_) => 0) + Net(ops[1..])
  }

  lemma StepSound(a: ArenaState, op: Op)
    requires Inv(a) && Allowed(a, op)
    ensures Inv(Step(a, op))
    ensures Live(Step(a, op).chunks) == Held(a, op, Live(a.chunks))
    ensures |Live(Step(a, op).chunks)| == |Live(a.chunks)| + Net([op])
  {
    match op
    case DoMalloc(begin) => MallocAddsOne(a, begin);
    case DoFree(ptr) => FreeRemovesOne(a, ptr);
    case DoShrink(begin) => ShrinkKeepsLive(a, begin);
  }

  /** The run `ops` leads from `a` to `b`, and the program ends up holding `held`. */
  ghost predicate Leads(a: ArenaState, had: set<int>, ops: seq<Op>, b: ArenaState, held: set<int>)
    requires Inv(a)
    decreases ops
  {
    if ops == [] then a == b && had == held
    else if Allowed(a, ops[0]) then
      StepSound(a, ops[0]);
      Leads(Step(a, ops[0]), Held(a, ops[0], had), ops[1..], b, held)
    else false
  }

  /**
   However a run went, the live blocks are exactly those the program holds,
   they do not overlap, each lies in an indexed chunk, and the free counts of
   the chunks add up to mallocs less frees.
   */
  lemma {:induction false} RunSound(a: ArenaState, ops: seq<Op>, b: ArenaState, held: set<int>)
    requires Inv(a) && Leads(a, Live(a.chunks), ops, b, held)
    ensures Inv(b) && Live(b.chunks) == held
    ensures Used(b.chunks) == |held| == |Live(a.chunks)| + Net(ops)
    ensures forall p, q :: p in held && q in held && p != q ==> p + b.blockSize <= q || q + b.blockSize <= p
    ensures forall p :: p in held ==>
      Owner(b.chunks, p) < |b.chunks| && p + b.blockSize <= b.chunks[Owner(b.chunks, p)].End()
    decreases ops
  {
    if ops == [] {
      LiveUsed(b.blockSize, b.chunks);
      forall p, q | p in held && q in held && p != q ensures p + b.blockSize <= q || q + b.blockSize <= p {
        LiveBlocksApart(b.blockSize, b.chunks, p, q);
      }
      forall p | p in held
        ensures Owner(b.chunks, p) < |b.chunks| && p + b.blockSize <= b.chunks[Owner(b.chunks, p)].End()
      {
        var k: nat :| k < |b.chunks| && p in b.chunks[k].Live();
        LiveInOne(b.blockSize, b.chunks, k, p);
      }
    } else {
      StepSound(a, ops[0]);
      RunSound(Step(a, ops[0]), ops[1..], b, held);
    }
  }

  // --------------------------------------------------- runs that only allocate

  /** Every chunk but the one allocated from is full. */
  ghost predicate PackedAt(a: ArenaState, k: nat) {
    && k < |a.chunks| && a.chunks[k].begin == a.alloc
    && (forall j :: 0 <= j < |a.chunks| && j != k ==> a.chunks[j].free == [])
    && (|a.chunks| > 1 ==> |a.chunks[k].free| < MAX_BLOCKS)
  }

  ghost predicate Packed(a: ArenaState) {
    exists k: nat :: PackedAt(a, k)
  }

  lemma {:induction false} UsedSplit(cs: seq<ChunkState>, k: nat)
    requires k < |cs|
    ensures Used(cs) == Used(cs[..k]) + MAX_BLOCKS - |cs[k].free| + Used(cs[k + 1..])
  {
    if k > 0 {
      UsedSplit(cs[1..], k - 1);
      assert cs[1..][..k - 1] == cs[..k][1..];
    }
  }

  lemma {:induction false} UsedFull(cs: seq<ChunkState>)
    requires forall j :: 0 <= j < |cs| ==> cs[j].free == []
    ensures Used(cs) == MAX_BLOCKS * |cs|
  {
    if cs != [] {
      UsedFull(cs[1..]);
    }
  }

  lemma PackedUsed(a: ArenaState, k: nat)
    requires PackedAt(a, k)
    ensures Used(a.chunks) == MAX_BLOCKS * |a.chunks| - |a.chunks[k].free|
  {
    var cs := a.chunks;
    UsedSplit(cs, k);
    UsedFull(cs[..k]);
    UsedFull(cs[k + 1..]);
  }

  /** Beginnings tell chunks apart. */
  lemma FindIs(a: ArenaState, k: nat)
    requires Inv(a) && k < |a.chunks| && a.chunks[k].begin == a.alloc
    ensures Find(a.chunks, a.alloc) == k
  {
    assert forall i, j :: 0 <= i < j < |a.chunks| ==> a.chunks[i].End() < a.chunks[j].begin;
  }

  lemma MallocPacks(a: ArenaState, begin: int)
    requires Inv(a) && Packed(a) && Clear(a.blockSize, a.chunks, begin)
    ensures Packed(Malloc(a, begin).0)
  {
    var k: nat :| PackedAt(a, k);
    FindIs(a, k);
    if a.chunks[k].free != [] {
      assert PackedAt(AllocateIn(a, k), k);
    } else {
      assert forall j :: 0 <= j < |a.chunks| ==> a.chunks[j].free == [];
      ExtendPacks(a, begin);
    }
  }

  lemma ExtendPacks(a: ArenaState, begin: int)
    requires Inv(a) && Clear(a.blockSize, a.chunks, begin)
    requires forall j :: 0 <= j < |a.chunks| ==> a.chunks[j].free == []
    ensures Packed(Extend(a, begin))
  {
    var c := NewState(begin, a.blockSize).Allocated();
    var j := PlacedIn(a.chunks, c);
    assert Extend(a, begin).chunks == a.chunks[..j] + [c] + a.chunks[j..];
    assert PackedAt(Extend(a, begin), j);
  }

  lemma {:induction false} RunStaysPacked(a: ArenaState, had: set<int>, ops: seq<Op>, b: ArenaState, held: set<int>)
    requires Inv(a) && Packed(a) && Leads(a, had, ops, b, held)
    requires forall i :: 0 <= i < |ops| ==> ops[i].DoMalloc?
    ensures Packed(b)
    decreases ops
  {
    if ops != [] {
      var next := Step(a, ops[0]);
      assert Inv(next) by {
        StepSound(a, ops[0]);
      }
      assert Packed(next) by {
        MallocPacks(a, ops[0].begin);
      }
      RunStaysPacked(next, Held(a, ops[0], had), ops[1..], b, held);
    }
  }

  /**
   A run of mallocs alone uses as few chunks as hold its blocks: a chunk is
   added only when all of them are full.
   */
  lemma MallocsPack(a: ArenaState, ops: seq<Op>, b: ArenaState, held: set<int>)
    requires Inv(a) && Packed(a) && Leads(a, Live(a.chunks), ops, b, held)
    requires forall i :: 0 <= i < |ops| ==> ops[i].DoMalloc?
    ensures |held| <= MAX_BLOCKS * |b.chunks|
    ensures |b.chunks| > 1 ==> MAX_BLOCKS * (|b.chunks| - 1) < |held|
  {
    assert Used(b.chunks) == |held| by {
      RunSound(a, ops, b, held);
    }
    RunStaysPacked(a, Live(a.chunks), ops, b, held);
    var k: nat :| PackedAt(b, k);
    PackedUsed(b, k);
  }

  lemma NewArenaPacked(bs: nat, begin: int)
    requires 1 <= bs <= 255
    ensures Inv(NewArena(bs, begin)) && Packed(NewArena(bs, begin)) && Live(NewArena(bs, begin).chunks) == {}
  {
    NewArenaInv(bs, begin);
    assert PackedAt(NewArena(bs, begin), 0);
  }
}
