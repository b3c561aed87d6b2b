/**
 The arena: chunks indexed by address in a range map, with one chunk remembered
 for allocation and one for release.  Every method is proved to do what the
 operation of the same name does to the arena as a value.

 The repaired walk over the range map and, but for `FreeAsWritten`, the repaired
 chunk guard are used; the range map may balance either way.
 */
module Arenas {
  import opened Basics
  import opened Ranges
  import opened Shapes
  import opened TreeSpec
  import opened Balancing
  import opened Iteration
  import opened RangeMaps
  import opened Chunks
  import AS = ArenaStates

  /** Chunk objects that share nothing. */
  ghost predicate Separate(parts: seq<Chunk>) {
    forall j, k :: 0 <= j < k < |parts| ==> parts[j] != parts[k] && parts[j].payload != parts[k].payload
  }

  ghost function Payloads(parts: seq<Chunk>): set<object> {
    set c <- parts :: c.payload
  }

  /** The chunk objects are in the states listed. */
  ghost predicate Stand(parts: seq<Chunk>, cs: seq<ChunkState>)
    reads parts, Payloads(parts)
  {
    |parts| == |cs| && forall k :: 0 <= k < |parts| ==> StandsAs(parts[k], cs[k])
  }

  ghost predicate StandsAs(c: Chunk, s: ChunkState)
    reads c, c.payload
  {
    c.Valid() && c.State() == s
  }

  /** The entries of the index are the chunk objects, under their address ranges. */
  ghost predicate Matches(xs: seq<Node<Chunk>>, parts: seq<Chunk>) {
    |xs| == |parts| && forall k :: 0 <= k < |xs| ==>
      xs[k].value == parts[k] && xs[k].range == Range(parts[k].begin, parts[k].end)
  }

  method AllocateAt(chunk: Chunk, size: nat, ghost parts: seq<Chunk>, ghost cs: seq<ChunkState>, ghost k: nat)
    returns (result: Option<int>)
    requires Stand(parts, cs) && Separate(parts) && k < |parts| && parts[k] == chunk && cs[k].blockSize == size
    modifies chunk
    ensures cs[k].free == [] ==> result == None && Stand(parts, cs)
    ensures cs[k].free != [] ==>
      result == Some(cs[k].Addr(cs[k].free[0])) && Stand(parts, cs[k := cs[k].Allocated()])
  {
    result := chunk.Allocate(size);
  }

  method ReleaseAt(chunk: Chunk, ptr: int, size: nat, ghost parts: seq<Chunk>, ghost cs: seq<ChunkState>, ghost k: nat)
    returns (ok: bool)
    requires Stand(parts, cs) && Separate(parts) && k < |parts| && parts[k] == chunk && cs[k].blockSize == size
    requires cs[k].Within(ptr) ==> ptr in cs[k].Live()
    modifies chunk, chunk.payload
    ensures ok <==> cs[k].Within(ptr)
    ensures !ok ==> Stand(parts, cs)
    ensures ok ==> size > 0 && Stand(parts, cs[k := cs[k].Released(ptr)])
    ensures chunk.OnlyBlock(ptr, old(chunk.payload[..]))
  {
    assert chunk.Valid() && chunk.State() == cs[k];
    ok := chunk.Release(ptr, size);
    forall j | 0 <= j < |parts| && j != k ensures parts[j].Valid() && parts[j].State() == cs[j] {
      assert old(parts[j].Valid() && parts[j].State() == cs[j]);
    }
  }

  /**
   What the guard as written does to a chunk it accepts a pointer for: it
   counts one block more and takes the pointer's index for the next block, with
   the free list as it was, and writes its old position where the pointer goes.
   `position` and `freeBlocks` are the chunk's fields from before.
   */
  ghost predicate Corrupted(chunk: Chunk, ptr: int, size: nat, position: byte, freeBlocks: byte, stray: Option<(int, byte)>)
    requires size > 0
    reads chunk, chunk.payload
  {
    && !chunk.Valid() && chunk.live && stray == Some((ptr, position))
    && chunk.freeBlocks as int == (freeBlocks as int + 1) % 256
    && chunk.position as int == ((ptr - chunk.begin) % SIZE_T) / size % 256
  }

  method ReleaseAsWrittenAt(chunk: Chunk, ptr: int, size: nat,
                            ghost parts: seq<Chunk>, ghost cs: seq<ChunkState>, ghost k: nat)
    returns (ok: bool, stray: Option<(int, byte)>)
    requires Stand(parts, cs) && Separate(parts) && k < |parts| && parts[k] == chunk && cs[k].blockSize == size
    requires ptr != cs[k].End()
    modifies chunk
    ensures ok <==> !cs[k].Within(ptr)
    ensures chunk.State() == old(chunk.State()) && size > 0
    ensures !ok ==> Stand(parts, cs) && stray == None
    ensures ok ==> Corrupted(chunk, ptr, size, old(chunk.position), old(chunk.freeBlocks), stray)
    ensures OthersStand(parts, cs, k)
  {
    ok, stray := chunk.ReleaseAsWritten(ptr, size);
  }

  /** Every chunk object but one is in the state listed. */
  ghost predicate OthersStand(parts: seq<Chunk>, cs: seq<ChunkState>, k: nat)
    reads parts, Payloads(parts)
  {
    |parts| == |cs| && forall j :: 0 <= j < |parts| && j != k ==> StandsAs(parts[j], cs[j])
  }

  ghost function Insert<T>(xs: seq<T>, x: T, k: nat): seq<T>
    requires k <= |xs|
  {
    xs[..k] + [x] + xs[k..]
  }

  lemma MatchesInserted(xs: seq<Node<Chunk>>, parts: seq<Chunk>, n: Node<Chunk>, chunk: Chunk, k: nat)
    requires Matches(xs, parts) && k <= |xs|
    requires n.value == chunk && n.range == Range(chunk.begin, chunk.end)
    ensures Matches(Insert(xs, n, k), Insert(parts, chunk, k))
  {
  }

  lemma SeparateInserted(parts: seq<Chunk>, chunk: Chunk, k: nat)
    requires Separate(parts) && k <= |parts| && chunk !in parts && chunk.payload !in Payloads(parts)
    ensures Separate(Insert(parts, chunk, k))
  {
    forall j | 0 <= j < |parts| ensures parts[j] != chunk && parts[j].payload != chunk.payload {
      assert parts[j] in parts;
    }
  }

  lemma StandInserted(parts: seq<Chunk>, cs: seq<ChunkState>, chunk: Chunk, k: nat)
    requires Stand(parts, cs) && k <= |parts| && chunk.Valid()
    ensures Stand(Insert(parts, chunk, k), Insert(cs, chunk.State(), k))
  {
  }

  lemma JoinsIndex(parts: seq<Chunk>, cs: seq<ChunkState>, bs: nat, chunk: Chunk, k: nat)
    requires Stand(parts, cs) && Separate(parts) && AS.Laid(bs, cs) && k <= |parts|
    requires chunk.Valid() && chunk !in parts && chunk.payload !in Payloads(parts)
    requires chunk.blockSize == bs && AS.Clear(bs, cs, chunk.begin)
    requires AS.Placed(cs, chunk.State()) == Insert(cs, chunk.State(), k)
    ensures var more, next := Insert(parts, chunk, k), Insert(cs, chunk.State(), k);
      && Stand(more, next) && Separate(more) && AS.Laid(bs, next)
      && chunk in more && forall c <- more :: c == chunk || c in parts
  {
    SeparateInserted(parts, chunk, k);
    StandInserted(parts, cs, chunk, k);
    AS.PlacedLaid(bs, cs, chunk.State());
  }

  /** A chunk clear of the others is comparable with all of them. */
  lemma NoClash(xs: seq<Node<Chunk>>, parts: seq<Chunk>, cs: seq<ChunkState>, c: ChunkState)
    requires Matches(xs, parts) && Stand(parts, cs) && AS.Clear(c.blockSize, cs, c.begin)
    requires AS.Laid(c.blockSize, cs) && c.Ok()
    ensures Admits(xs, Range(c.begin, c.End()))
  {
    forall x | x in xs ensures Comparable(Range(c.begin, c.End()), x.range) {
      var k :| 0 <= k < |xs| && xs[k] == x;
      assert StandsAs(parts[k], cs[k]);
    }
  }

  /** Key order and address order put a chunk in the same place. */
  lemma SamePlace(xs: seq<Node<Chunk>>, parts: seq<Chunk>, cs: seq<ChunkState>, c: ChunkState, n: Node<Chunk>, k: nat)
    requires Matches(xs, parts) && Stand(parts, cs) && k <= |xs| && n.range == Range(c.begin, c.End())
    requires forall i :: 0 <= i < k ==> xs[i].range.Precedes(n.range)
    requires forall i :: k <= i < |xs| ==> n.range.Precedes(xs[i].range)
    ensures AS.Placed(cs, c) == Insert(cs, c, k)
  {
    forall j | 0 <= j < |cs| ensures if j < k then cs[j].begin < c.begin else c.begin < cs[j].begin {
      assert StandsAs(parts[j], cs[j]) && xs[j].range.min == parts[j].begin;
    }
    AS.PlacedThere(cs, c, k);
  }

  /** Where the index put a chunk is where its address belongs. */
  lemma PlacedWith(xs: seq<Node<Chunk>>, ys: seq<Node<Chunk>>, parts: seq<Chunk>, cs: seq<ChunkState>,
                   chunk: Chunk, n: Node<Chunk>) returns (k: nat)
    requires Matches(xs, parts) && Stand(parts, cs) && chunk.Valid()
    requires n.value == chunk && n.range == Range(chunk.begin, chunk.end)
    requires exists k :: PlacedAt(xs, n, k, ys)
    ensures k <= |parts| && Matches(ys, Insert(parts, chunk, k))
    ensures AS.Placed(cs, chunk.State()) == Insert(cs, chunk.State(), k)
  {
    k :| PlacedAt(xs, n, k, ys);
    SamePlace(xs, parts, cs, chunk.State(), n, k);
    MatchesInserted(xs, parts, n, chunk, k);
  }

  /** Inserts a chunk under its address range, which never clashes with those indexed. */
  method IndexAt(index: RangeMap<Chunk>, chunk: Chunk, ghost parts: seq<Chunk>, ghost cs: seq<ChunkState>, ghost bs: nat)
    returns (ghost k: nat)
    requires index.Valid() && (index.balancing == Repaired ==> Avl(index.shape))
    requires Matches(index.Entries(), parts) && Stand(parts, cs) && AS.Laid(bs, cs)
    requires chunk.Valid() && chunk.blockSize == bs && AS.Clear(bs, cs, chunk.begin)
    modifies index, Nodes(index.shape)
    ensures index.Valid()
    ensures index.balancing == Repaired ==> Avl(index.shape)
    ensures k <= |parts| && Matches(index.Entries(), Insert(parts, chunk, k))
    ensures AS.Placed(cs, chunk.State()) == Insert(cs, chunk.State(), k)
    ensures forall x <- Nodes(index.shape) :: x in old(Nodes(index.shape)) || fresh(x)
    ensures Stand(parts, cs) && chunk.Valid()
  {
    ghost var xs, c, before := index.Entries(), chunk.State(), index.shape;
    NoClash(xs, parts, cs, c);
    var ok;
    ghost var added;
    ok, added := index.Insert(Range(chunk.begin, chunk.end), chunk);
    assert ok;
    if index.balancing == Repaired {
      InsertedAvl(before, added);
    }
    k := PlacedWith(xs, index.Entries(), parts, cs, chunk, added);
  }

  class Arena {
    const blockSize: nat
    const chunks: RangeMap<Chunk>
    var allocCurrent: Chunk
    var freeCurrent: Chunk
    ghost var parts: seq<Chunk>
    ghost var state: AS.ArenaState

    /** The index holds exactly the chunks of `a`, in the states `a` says; a tree that balances as repaired is balanced. */
    ghost predicate Indexed(a: AS.ArenaState)
      reads this, chunks, Nodes(chunks.shape), parts, Payloads(parts)
    {
      match a
      case ArenaState(size, cs, _, _) =>
        && chunks.Valid() && chunks.walking == Repaired && (chunks.balancing == Repaired ==> Avl(chunks.shape))
        && Matches(chunks.Entries(), parts) && Separate(parts) && Stand(parts, cs)
        && size == blockSize && AS.Laid(size, cs)
    }

    ghost predicate Valid()
      reads this, chunks, Nodes(chunks.shape), parts, Payloads(parts)
    {
      match state
      case ArenaState(_, _, alloc, freeing) =>
        && Indexed(state) && AS.Inv(state)
        && allocCurrent in parts && allocCurrent.begin == alloc
        && freeCurrent in parts && freeCurrent.begin == freeing
    }

    constructor (blockSize: nat, begin: int, balancing: Edition)
      requires 1 <= blockSize <= 255
      ensures Valid() && state == AS.NewArena(blockSize, begin) && chunks.balancing == balancing
      ensures fresh(chunks) && forall x <- Nodes(chunks.shape) :: fresh(x)
      ensures forall c <- parts :: fresh(c) && fresh(c.payload)
    {
      this.blockSize := blockSize;
      var index := new RangeMap<Chunk>(balancing, Repaired);
      var first := new Chunk(blockSize, begin);
      allocCurrent, freeCurrent := first, first;
      this.chunks := index;
      this.parts := [];
      this.state := AS.ArenaState(blockSize, [], begin, begin);
      new;
      Nothing(first);
      assert chunks.Entries() == [];
      Begin(first, begin);
    }

    /** Makes a new chunk the only one. */
    method Begin(first: Chunk, begin: int)
      requires Indexed(state) && parts == [] && state.chunks == []
      requires first.Valid() && first.State() == NewState(begin, blockSize)
      modifies this, chunks, Nodes(chunks.shape)
      ensures Valid() && parts == [first] && state == AS.NewArena(blockSize, begin)
      ensures forall x <- Nodes(chunks.shape) :: x in old(Nodes(chunks.shape)) || fresh(x)
    {
      allocCurrent, freeCurrent, state := first, first, state.(alloc := begin, freeing := begin);
      Nothing(first);
      ghost var k := Index(first);
      OnlyChunk(first, begin);
    }

    lemma Nothing(first: Chunk)
      ensures Payloads([]) == {} && Stand([], []) && Separate([]) && Matches([], [])
      ensures 1 <= blockSize <= 255 ==> AS.Laid(blockSize, [])
      ensures AS.Clear(blockSize, [], first.begin)
    {
    }

    lemma OnlyChunk(first: Chunk, begin: int)
      requires Indexed(state)
      requires parts == Insert([], first, 0) && first.begin == begin && allocCurrent == freeCurrent == first
      requires state == AS.ArenaState(blockSize, AS.Placed([], NewState(begin, blockSize)), begin, begin)
      ensures Valid() && parts == [first] && state == AS.NewArena(blockSize, begin)
    {
      AS.NewArenaInv(blockSize, begin);
    }

    /** Adds a chunk to the index; the insertion is never refused. */
    method Index(chunk: Chunk) returns (ghost k: nat)
      requires Indexed(state)
      requires chunk.Valid() && chunk !in parts && chunk.payload !in Payloads(parts)
      requires chunk.blockSize == blockSize && AS.Clear(blockSize, state.chunks, chunk.begin)
      modifies this`parts, this`state, chunks, Nodes(chunks.shape)
      ensures Indexed(state)
      ensures state == old(state).(chunks := AS.Placed(old(state.chunks), chunk.State()))
      ensures k <= |old(parts)| && parts == Insert(old(parts), chunk, k) && chunk in parts
      ensures k <= |old(state.chunks)| && state.chunks == Insert(old(state.chunks), chunk.State(), k)
      ensures forall c <- parts :: c == chunk || c in old(parts)
      ensures forall x <- Nodes(chunks.shape) :: x in old(Nodes(chunks.shape)) || fresh(x)
    {
      k := IndexAt(chunks, chunk, parts, state.chunks, blockSize);
      Join(chunk, k);
    }

    /** Lists a chunk that has been put into the index. */
    ghost method Join(chunk: Chunk, k: nat)
      requires chunks.Valid() && chunks.walking == Repaired && (chunks.balancing == Repaired ==> Avl(chunks.shape))
      requires k <= |parts| && Matches(chunks.Entries(), Insert(parts, chunk, k))
      requires Stand(parts, state.chunks) && Separate(parts) && AS.Laid(blockSize, state.chunks)
      requires state.blockSize == blockSize && AS.Clear(blockSize, state.chunks, chunk.begin)
      requires chunk.Valid() && chunk !in parts && chunk.payload !in Payloads(parts) && chunk.blockSize == blockSize
      requires AS.Placed(state.chunks, chunk.State()) == Insert(state.chunks, chunk.State(), k)
      modifies this`parts, this`state
      ensures Indexed(state)
      ensures state == old(state).(chunks := AS.Placed(old(state.chunks), chunk.State()))
      ensures parts == Insert(old(parts), chunk, k) && chunk in parts
      ensures forall c <- parts :: c == chunk || c in old(parts)
    {
      JoinsIndex(parts, state.chunks, blockSize, chunk, k);
      parts, state := Insert(parts, chunk, k), state.(chunks := Insert(state.chunks, chunk.State(), k));
    }

    /** A chunk's position in the index. */
    lemma PartAt(chunk: Chunk) returns (k: nat)
      requires Valid() && chunk in parts
      ensures k < |parts| && parts[k] == chunk && AS.Has(state.chunks, chunk.begin)
      ensures AS.Find(state.chunks, chunk.begin) == k
    {
      k :| k < |parts| && parts[k] == chunk;
      assert state.chunks[k].begin == chunk.begin;
    }

    /** Allocates from one chunk, and remembers it if that worked. */
    method TryToAlloc(chunk: Chunk, ghost k: nat) returns (result: Option<int>)
      requires Valid() && k < |parts| && parts[k] == chunk
      modifies this`allocCurrent, this`state, chunk
      ensures Valid()
      ensures old(state.chunks[k].free) == [] ==> result == None && state == old(state)
      ensures old(state.chunks[k].free) != [] ==>
        result == Some(AS.BlockIn(old(state), k)) && state == AS.AllocateIn(old(state), k)
    {
      ShapeAllocated(chunks.shape);
      result := AllocateAt(chunk, blockSize, parts, state.chunks, k);
      if result != None {
        Remember(chunk, k);
      }
    }

    method Remember(chunk: Chunk, ghost k: nat)
      requires AS.Inv(state) && k < |state.chunks| && state.chunks[k].free != []
      requires Indexed(AS.AllocateIn(state, k)) && parts[k] == chunk
      requires freeCurrent in parts && freeCurrent.begin == state.freeing
      modifies this`allocCurrent, this`state
      ensures Valid() && state == AS.AllocateIn(old(state), k)
    {
      assert AS.Inv(AS.AllocateIn(state, k)) by {
        AS.AllocateInAdds(state, k);
      }
      ghost var next := AS.AllocateIn(state, k);
      assert next.alloc == chunk.begin by {
        assert parts[k].State() == next.chunks[k];
      }
      allocCurrent, state := chunk, next;
    }

    /**
     Hands out a block: from the remembered chunk, else from the first indexed
     chunk that has one free, else from a new chunk placed at `begin`.
     */
    method Malloc(begin: int) returns (result: int)
      requires Valid() && AS.Clear(blockSize, state.chunks, begin)
      modifies this, chunks, Nodes(chunks.shape), parts
      ensures Valid() && (state, result) == AS.Malloc(old(state), begin)
      ensures forall x <- Nodes(chunks.shape) :: x in old(Nodes(chunks.shape)) || fresh(x)
      ensures forall c <- parts :: c in old(parts) || (fresh(c) && fresh(c.payload))
    {
      var found := AllocateIndexed();
      if found != None {
        return found.value;
      }
      result := Extend(begin);
    }

    method AllocateIndexed() returns (found: Option<int>)
      requires Valid()
      modifies this`allocCurrent, this`state, parts
      ensures Valid() && AS.Has(old(state.chunks), old(state.alloc))
      ensures Found(old(state), AS.Choice(old(state)), found, state)
    {
      ghost var f := PartAt(allocCurrent);
      found := TryToAlloc(allocCurrent, f);
      if found == None {
        found := Search();
      }
    }

    /** One step along the index. */
    method Advance(it: Node<Chunk>, ghost k: nat) returns (next: Node?<Chunk>)
      requires Valid() && k < |chunks.Entries()| && chunks.Entries()[k] == it
      ensures Valid() && next == At(chunks.Entries(), k + 1)
    {
      ShapeAllocated(chunks.shape);
      next := chunks.Next(it, k);
    }

    /** Tries one chunk of the index and, if it is full, steps to the next. */
    method TryInOrder(it: Node<Chunk>, ghost k: nat) returns (found: Option<int>, next: Node?<Chunk>)
      requires Valid() && k < |parts| && chunks.Entries()[k] == it && k <= AS.FirstFree(state.chunks)
      modifies this`allocCurrent, this`state, parts[k]
      ensures Valid()
      ensures found != None <==> old(k == AS.FirstFree(state.chunks))
      ensures found != None ==> Found(old(state), k, found, state)
      ensures found == None ==> state == old(state) && next == At(chunks.Entries(), k + 1)
    {
      ShapeAllocated(chunks.shape);
      next := null;
      found := TryToAlloc(it.value, k);
      if found == None {
        next := Advance(it, k);
      }
    }

    /** The outcome of allocating from chunk `k`, or from none if there is no such chunk. */
    static ghost predicate Found(was: AS.ArenaState, k: nat, found: Option<int>, now: AS.ArenaState)
      requires k < |was.chunks| ==> was.chunks[k].free != []
    {
      match was
      case ArenaState(_, cs, _, _) =>
        if k < |cs| then found == Some(AS.BlockIn(was, k)) && now == AS.AllocateIn(was, k)
        else found == None && now == was
    }

    /** Tries the indexed chunks in order. */
    method Search() returns (found: Option<int>)
      requires Valid()
      modifies this`allocCurrent, this`state, parts
      ensures Valid()
      ensures Found(old(state), AS.FirstFree(old(state.chunks)), found, state)
    {
      ghost var was, k := state, 0;
      var it := StartSearch();
      found := None;
      while it != null
        invariant Searching(it, k, was) && found == None
        decreases |parts| - k
      {
        SearchGoesOn(it, k, was);
        found, it := TryInOrder(it, k);
        if found != None {
          return;
        }
        k := k + 1;
      }
      SearchGoesOn(it, k, was);
    }

    /** The chunks before position `k` were full, and nothing has changed. */
    ghost predicate Searching(it: Node?<Chunk>, k: nat, was: AS.ArenaState)
      reads this, chunks, Nodes(chunks.shape), parts, Payloads(parts)
    {
      match was
      case ArenaState(_, cs, _, _) =>
        && Valid() && state == was
        && k <= |parts| && it == At(chunks.Entries(), k) && k <= AS.FirstFree(cs)
    }

    method StartSearch() returns (it: Node?<Chunk>)
      requires Valid()
      ensures Searching(it, 0, state)
    {
      ShapeAllocated(chunks.shape);
      it := chunks.Begin();
    }

    lemma SearchGoesOn(it: Node?<Chunk>, k: nat, was: AS.ArenaState)
      requires Searching(it, k, was)
      ensures Valid() && state == was && k <= AS.FirstFree(was.chunks) && |parts| == |was.chunks|
      ensures if it == null then k == |parts| else k < |parts| && chunks.Entries()[k] == it
    {
    }

    method Extend(begin: int) returns (result: int)
      requires Valid() && AS.Clear(blockSize, state.chunks, begin)
      modifies this, chunks, Nodes(chunks.shape)
      ensures Valid() && state == AS.Extend(old(state), begin) && result == begin
      ensures forall x <- Nodes(chunks.shape) :: x in old(Nodes(chunks.shape)) || fresh(x)
      ensures forall c <- parts :: c in old(parts) || (fresh(c) && fresh(c.payload))
    {
      ghost var next := AS.Extend(state, begin);
      ShapeAllocated(chunks.shape);
      var current;
      current, result := NewChunk(begin);
      assert AS.Inv(next) by {
        AS.ExtendAdds(state, begin);
      }
      Adopt(current, next);
    }

    /** Indexes a new chunk and remembers it for allocation and release. */
    method Adopt(chunk: Chunk, ghost next: AS.ArenaState)
      requires Indexed(state) && AS.Inv(next) && AS.Clear(blockSize, state.chunks, chunk.begin)
      requires chunk.Valid() && chunk.blockSize == blockSize && chunk !in parts && chunk.payload !in Payloads(parts)
      requires next == AS.ArenaState(blockSize, AS.Placed(state.chunks, chunk.State()), chunk.begin, chunk.begin)
      modifies this, chunks, Nodes(chunks.shape)
      ensures Valid() && state == next
      ensures forall x <- Nodes(chunks.shape) :: x in old(Nodes(chunks.shape)) || fresh(x)
      ensures forall c <- parts :: c == chunk || c in old(parts)
    {
      ghost var k := Index(chunk);
      RememberNew(chunk, next);
    }

    /** A new chunk and its first block. */
    method NewChunk(begin: int) returns (current: Chunk, result: int)
      requires 1 <= blockSize <= 255
      ensures fresh(current) && fresh(current.payload) && current.Valid() && result == begin
      ensures current.State() == NewState(begin, blockSize).Allocated()
    {
      current := new Chunk(blockSize, begin);
      var block := current.Allocate(blockSize);
      result := block.value;
      AS.NewStateOk(begin, blockSize);
    }

    method RememberNew(chunk: Chunk, ghost next: AS.ArenaState)
      requires Indexed(state) && chunk in parts && AS.Inv(next)
      requires next == AS.ArenaState(blockSize, state.chunks, chunk.begin, chunk.begin)
      modifies this`allocCurrent, this`freeCurrent, this`state
      ensures Valid() && state == next
    {
      allocCurrent, freeCurrent, state := chunk, chunk, next;
    }

    /** Frees to one chunk if the block is from it, and remembers that chunk. */
    method TryToFree(ptr: int, chunk: Chunk, ghost k: nat) returns (ok: bool)
      requires Valid() && k < |parts| && parts[k] == chunk && AS.Freeable(state, ptr)
      modifies this`freeCurrent, this`state, chunk, chunk.payload
      ensures Valid()
      ensures ok <==> old(state.chunks)[k].Within(ptr)
      ensures AS.Laid(blockSize, old(state.chunks)) && Returned(old(state), ptr, k, state)
      ensures chunk.OnlyBlock(ptr, old(chunk.payload[..]))
    {
      ShapeAllocated(chunks.shape);
      ok := ReleaseAt(chunk, ptr, blockSize, parts, state.chunks, k);
      if ok {
        RememberFree(ptr, chunk, k);
      }
    }

    method RememberFree(ptr: int, chunk: Chunk, ghost k: nat)
      requires AS.Inv(state) && k < |state.chunks| && AS.Freeable(state, ptr)
      requires state.blockSize > 0 && state.chunks[k].blockSize > 0 && state.chunks[k].Within(ptr)
      requires Indexed(AS.ReleaseIn(state, k, ptr)) && parts[k] == chunk
      requires allocCurrent in parts && allocCurrent.begin == state.alloc
      modifies this`freeCurrent, this`state
      ensures Valid() && state == AS.ReleaseIn(old(state), k, ptr)
    {
      ghost var next := AS.ReleaseIn(state, k, ptr);
      assert AS.Inv(next) by {
        AS.ReleaseInRemoves(state, k, ptr);
      }
      assert next.freeing == chunk.begin by {
        assert parts[k].State() == next.chunks[k];
      }
      freeCurrent, state := chunk, next;
    }

    /** Where the index finds an address. */
    lemma FoundAt(ptr: int, found: Node?<Chunk>) returns (k: nat)
      requires Valid()
      requires found != null ==> found in chunks.Entries() && found.range.Contains(ptr)
      requires found == null ==> forall x <- chunks.Entries() :: !x.range.Contains(ptr)
      ensures k == AS.Owner(state.chunks, ptr) && k <= |parts| && |parts| == |state.chunks|
      ensures k < |parts| <==> found != null
      ensures k < |parts| ==> parts[k] == found.value
    {
      var xs, cs := chunks.Entries(), state.chunks;
      if found == null {
        forall j | 0 <= j < |cs| ensures !(cs[j].begin <= ptr <= cs[j].End()) {
          assert StandsAs(parts[j], cs[j]) && xs[j] in xs;
        }
        k := AS.Owner(cs, ptr);
      } else {
        k :| k < |xs| && xs[k] == found;
        assert StandsAs(parts[k], cs[k]);
        AS.OwnerIs(blockSize, cs, ptr, k);
      }
    }

    /** The outcome of offering a pointer to chunk `k`, or to none if there is no such chunk. */
    static ghost predicate Returned(was: AS.ArenaState, ptr: int, k: nat, now: AS.ArenaState)
      requires AS.Laid(was.blockSize, was.chunks)
    {
      match was
      case ArenaState(_, cs, _, _) =>
        now == if k < |cs| && cs[k].Within(ptr) then AS.ReleaseIn(was, k, ptr) else was
    }

    method LookupAndFree(ptr: int) returns (found: bool)
      requires Valid() && AS.Freeable(state, ptr)
      modifies this`freeCurrent, this`state, parts, Payloads(parts)
      ensures Valid()
      ensures found <==> AS.Owner(old(state.chunks), ptr) < |old(state.chunks)|
      ensures AS.Laid(blockSize, old(state.chunks))
      ensures Returned(old(state), ptr, AS.Owner(old(state.chunks), ptr), state)
    {
      ShapeAllocated(chunks.shape);
      var it := chunks.Find(ptr);
      ghost var k := FoundAt(ptr, it);
      if it == null {
        return false;
      }
      var ok := TryToFree(ptr, it.value, k);
      return true;
    }

    /** Takes a block back; false when the pointer is in no chunk of this arena. */
    method Free(ptr: int) returns (ok: bool)
      requires Valid() && AS.Freeable(state, ptr)
      modifies this`freeCurrent, this`state, parts, Payloads(parts)
      ensures Valid() && AS.Inv(old(state)) && (state, ok) == AS.Free(old(state), ptr)
    {
      ghost var f := PartAt(freeCurrent);
      ok := TryToFree(ptr, freeCurrent, f);
      if !ok {
        ok := LookupAndFree(ptr);
      }
    }

    /**
     `Free` with the guard of `release` as written.  A block of the remembered
     chunk is reported freed and stays in use, and nothing changes.  For any
     other block the remembered chunk is corrupted and a byte is written through
     the pointer; the other chunks, the one the block is from among them, stay
     as they were.  No block is ever freed.
     */
    method FreeAsWritten(ptr: int) returns (ok: bool, stray: Option<(int, byte)>)
      requires Valid() && ptr in AS.Live(state.chunks)
      modifies parts
      ensures ok && state == old(state)
      ensures Valid() <==> old(freeCurrent.State()).Within(ptr)
      ensures Valid() ==> stray == None
      ensures !Valid() ==>
        && freeCurrent.State() == old(freeCurrent.State()) && blockSize > 0
        && Corrupted(freeCurrent, ptr, blockSize, old(freeCurrent.position), old(freeCurrent.freeBlocks), stray)
      ensures !Valid() ==> exists f: nat :: f < |parts| && parts[f] == freeCurrent && OthersStand(parts, state.chunks, f)
    {
      ghost var f := PartAt(freeCurrent);
      NotAtEnd(ptr, f);
      ok, stray := TryAsWritten(ptr, f);
      if !ok {
        ok := LookupAsWritten(ptr, f);
      }
    }

    method TryAsWritten(ptr: int, ghost f: nat) returns (freed: bool, stray: Option<(int, byte)>)
      requires Valid() && f < |parts| && parts[f] == freeCurrent
      requires f < |state.chunks| && ptr != state.chunks[f].End()
      modifies freeCurrent
      ensures freed <==> !state.chunks[f].Within(ptr)
      ensures !freed ==> Valid() && stray == None
      ensures freed ==> !Valid() && blockSize > 0 && freeCurrent.State() == old(freeCurrent.State())
      ensures freed ==>
        Corrupted(freeCurrent, ptr, blockSize, old(freeCurrent.position), old(freeCurrent.freeBlocks), stray)
      ensures OthersStand(parts, state.chunks, f)
    {
      ShapeAllocated(chunks.shape);
      freed, stray := ReleaseAsWrittenAt(freeCurrent, ptr, blockSize, parts, state.chunks, f);
    }

    method LookupAsWritten(ptr: int, ghost f: nat) returns (found: bool)
      requires Valid() && f < |state.chunks| && state.chunks[f].Within(ptr)
      modifies parts
      ensures Valid() && found
    {
      ShapeAllocated(chunks.shape);
      var it := chunks.Find(ptr);
      FoundHere(ptr, it, f);
      if it == null {
        return false;
      }
      AskAsWritten(it.value, ptr, f);
      return true;
    }

    /** The chunk a pointer is from turns it away. */
    method AskAsWritten(chunk: Chunk, ptr: int, ghost f: nat)
      requires Valid() && f < |parts| && parts[f] == chunk && f < |state.chunks| && state.chunks[f].Within(ptr)
      modifies chunk
      ensures Valid()
    {
      ShapeAllocated(chunks.shape);
      var freed, stray := ReleaseAsWrittenAt(chunk, ptr, blockSize, parts, state.chunks, f);
    }

    lemma FoundHere(ptr: int, found: Node?<Chunk>, f: nat)
      requires Valid() && f < |state.chunks| && state.chunks[f].Within(ptr)
      requires found != null ==> found in chunks.Entries() && found.range.Contains(ptr)
      requires found == null ==> forall x <- chunks.Entries() :: !x.range.Contains(ptr)
      ensures found != null && f < |parts| && found.value == parts[f]
    {
      var k := FoundAt(ptr, found);
      AS.OwnerIs(blockSize, state.chunks, ptr, f);
    }

    lemma NotAtEnd(ptr: int, f: nat)
      requires Valid() && ptr in AS.Live(state.chunks) && f < |state.chunks|
      ensures ptr != state.chunks[f].End()
    {
      var k: nat :| k < |state.chunks| && ptr in state.chunks[k].Live();
      AS.LiveInOne(blockSize, state.chunks, k, ptr);
    }

    /** Gives a live chunk back to the system; nothing may be assumed of its fields afterwards. */
    static method ReleaseChunk(chunk: Chunk)
      requires chunk.live
      modifies chunk
      ensures !chunk.live
    {
      chunk.freeBlocks, chunk.position, chunk.free, chunk.live := *, *, *, false;
    }

    /** The first `done` chunks are kept or released, the others are as listed. */
    static ghost predicate Sifting(parts: seq<Chunk>, cs: seq<ChunkState>, s: Sieve)
      reads parts, Payloads(parts), s.kept, Payloads(s.kept), s.released
    {
      match s
      case Sieve(k, kept, released) =>
        && Sifted(parts, cs, s)
        && (forall j :: k <= j < |parts| ==> StandsAs(parts[j], cs[j]))
        && Stand(kept, AS.Occupied(cs[..k]))
        && Gone(released)
    }

    method Sift(chunk: Chunk, kept: seq<Chunk>, ghost s: Sieve) returns (more: seq<Chunk>, ghost t: Sieve)
      requires s.kept == kept && s.done < |parts| && parts[s.done] == chunk && Separate(parts)
      requires Sifting(parts, state.chunks, s)
      modifies chunk
      ensures t.kept == more && t.done == s.done + 1
      ensures Sifting(parts, state.chunks, t)
    {
      assert StandsAs(chunk, state.chunks[s.done]);
      var empty := chunk.Empty();
      if !empty {
        more := kept + [chunk];
        t := Sieve(s.done + 1, more, s.released);
        KeepsSifting(parts, state.chunks, s);
      } else {
        more := kept;
        t := Sieve(s.done + 1, more, s.released + {chunk});
        ReleaseSifted(chunk, parts, state.chunks, s);
      }
    }

    static lemma KeepsSifting(parts: seq<Chunk>, cs: seq<ChunkState>, s: Sieve)
      requires Sifting(parts, cs, s) && Separate(parts) && s.done < |parts| && cs[s.done].Live() != {}
      ensures Sifting(parts, cs, Sieve(s.done + 1, s.kept + [parts[s.done]], s.released))
    {
      assert StandsAs(parts[s.done], cs[s.done]);
      SiftOne(parts, cs, s);
    }

    static method ReleaseSifted(chunk: Chunk, ghost parts: seq<Chunk>, ghost cs: seq<ChunkState>, ghost s: Sieve)
      requires Sifting(parts, cs, s) && Separate(parts) && s.done < |parts| && cs[s.done].Live() == {}
      requires parts[s.done] == chunk
      modifies chunk
      ensures Sifting(parts, cs, Sieve(s.done + 1, s.kept, s.released + {chunk}))
    {
      assert StandsAs(chunk, cs[s.done]);
      SiftOne(parts, cs, s);
      ReleaseChunk(chunk);
    }

    /** The walk stands at `it`, with everything before it dealt with and the index unharmed. */
    ghost predicate Walking(it: Node?<Chunk>, s: Sieve)
      reads this, chunks, Nodes(chunks.shape), parts, Payloads(parts), s.kept, Payloads(s.kept), s.released
    {
      match s
      case Sieve(k, _, _) =>
        && chunks.Valid() && chunks.walking == Repaired && Matches(chunks.Entries(), parts) && Separate(parts)
        && k <= |parts| && it == At(chunks.Entries(), k)
        && Sifting(parts, state.chunks, s)
    }

    /** Deals with one chunk of the index and steps to the next. */
    method SiftInOrder(it: Node<Chunk>, kept: seq<Chunk>, ghost s: Sieve)
      returns (more: seq<Chunk>, next: Node?<Chunk>, ghost t: Sieve)
      requires Walking(it, s) && s.kept == kept
      modifies parts[s.done]
      ensures Walking(next, t) && t.kept == more && t.done == s.done + 1 <= |parts|
    {
      ShapeAllocated(chunks.shape);
      next := chunks.Next(it, s.done);
      more, t := Sift(it.value, kept, s);
    }

    /** Walks the index, keeps the chunks with a block in use and releases the others. */
    method Collect() returns (kept: seq<Chunk>, ghost s: Sieve)
      requires Valid()
      modifies parts
      ensures Walking(null, s) && s.kept == kept && s.done == |parts|
    {
      kept, s := [], Sieve(0, [], {});
      var it := StartWalk();
      while it != null
        invariant Walking(it, s) && s.kept == kept
        decreases |parts| - s.done
      {
        kept, it, s := SiftInOrder(it, kept, s);
      }
      WalkGoesOn(it, s);
    }

    method StartWalk() returns (it: Node?<Chunk>)
      requires Valid()
      ensures Walking(it, Sieve(0, [], {}))
    {
      ShapeAllocated(chunks.shape);
      it := chunks.Begin();
      assert Payloads([]) == {};
    }

    lemma WalkGoesOn(it: Node?<Chunk>, s: Sieve)
      requires Walking(it, s)
      ensures if it == null then s.done == |parts| else s.done < |parts|
    {
    }

    /** Puts the kept chunks back into the emptied index, in order. */
    method IndexAll(kept: seq<Chunk>, ghost cs: seq<ChunkState>)
      requires Indexed(state) && parts == [] && state.chunks == []
      requires Stand(kept, cs) && Separate(kept) && AS.Laid(blockSize, cs)
      modifies this`parts, this`state, chunks, Nodes(chunks.shape)
      ensures Indexed(state) && parts == kept && state == old(state).(chunks := cs)
      ensures forall x <- Nodes(chunks.shape) :: x in old(Nodes(chunks.shape)) || fresh(x)
    {
      var i := 0;
      while i < |kept|
        invariant i <= |kept| && Stand(kept, cs)
        invariant Indexed(state) && parts == kept[..i] && state == old(state).(chunks := cs[..i])
        invariant forall x <- Nodes(chunks.shape) :: x in old(Nodes(chunks.shape)) || fresh(x)
      {
        IndexNext(kept, cs, i);
        i := i + 1;
      }
      assert kept[..i] == kept && cs[..i] == cs;
    }

    method IndexNext(kept: seq<Chunk>, ghost cs: seq<ChunkState>, i: nat)
      requires i < |kept| && Stand(kept, cs) && Separate(kept) && AS.Laid(blockSize, cs)
      requires Indexed(state) && parts == kept[..i] && state.chunks == cs[..i]
      modifies this`parts, this`state, chunks, Nodes(chunks.shape)
      ensures Stand(kept, cs)
      ensures Indexed(state) && parts == kept[..i + 1] && state == old(state).(chunks := cs[..i + 1])
      ensures forall x <- Nodes(chunks.shape) :: x in old(Nodes(chunks.shape)) || fresh(x)
    {
      assert StandsAs(kept[i], cs[i]);
      AS.NextPlaced(blockSize, cs, i);
      assert forall c <- kept[..i] :: c != kept[i] && c.payload != kept[i].payload;
      ghost var k := Index(kept[i]);
      LastInserted(kept, cs, i, k);
    }

    lemma LastInserted(kept: seq<Chunk>, cs: seq<ChunkState>, i: nat, k: nat)
      requires AS.Laid(blockSize, cs) && i < |cs| == |kept| && k <= i
      requires Insert(cs[..i], cs[i], k) == cs[..i + 1]
      ensures Insert(kept[..i], kept[i], k) == kept[..i + 1]
    {
      assert cs[..i + 1][k] == cs[i];
      assert k == i;
    }

    /** Empties the index. */
    method Drop()
      requires chunks.Valid() && chunks.walking == Repaired && state.blockSize == blockSize && 1 <= blockSize <= 255
      modifies this`parts, this`state, chunks, Nodes(chunks.shape)
      ensures Indexed(state) && parts == [] && state == old(state).(chunks := []) && chunks.shape == Nil
    {
      ghost var freed := chunks.Clear();
      parts, state := [], state.(chunks := []);
    }

    /** Chooses the chunks to remember: the first indexed, or a new one if there is none. */
    method Restart(begin: int)
      requires Indexed(state)
      modifies this, chunks, Nodes(chunks.shape)
      ensures Valid()
      ensures state == if old(state.chunks) == [] then AS.NewArena(blockSize, begin)
        else old(state).(alloc := old(state.chunks)[0].begin, freeing := old(state.chunks)[0].begin)
      ensures forall c <- parts :: c in old(parts) || (fresh(c) && fresh(c.payload))
      ensures forall x <- Nodes(chunks.shape) :: x in old(Nodes(chunks.shape)) || fresh(x)
    {
      ShapeAllocated(chunks.shape);
      var empty := chunks.Empty();
      if empty {
        var first := new Chunk(blockSize, begin);
        Begin(first, begin);
      } else {
        var it := chunks.Begin();
        ghost var b := state.chunks[0].begin;
        assert parts[0].State() == state.chunks[0];
        RememberNew(it.value, AS.ArenaState(blockSize, state.chunks, b, b));
      }
    }

    /**
     Gives the chunks without a block in use back to the system and indexes
     the others anew; when none is left, starts with one new chunk.
     */
    method Shrink(begin: int) returns (ghost released: set<Chunk>)
      requires Valid()
      modifies this, chunks, Nodes(chunks.shape), parts
      ensures Valid() && state == AS.Shrink(old(state), begin)
      ensures Emptied(old(parts), old(state), released) && Gone(released)
      ensures forall c <- parts :: c in old(parts) || (fresh(c) && fresh(c.payload))
    {
      var kept;
      kept, released := Gather();
      RebuildBeside(kept, AS.Occupied(state.chunks), begin, released);
    }

    /** Rebuilds the index, which does not bring released chunks back. */
    method RebuildBeside(kept: seq<Chunk>, ghost cs: seq<ChunkState>, begin: int, ghost released: set<Chunk>)
      requires chunks.Valid() && chunks.walking == Repaired && state.blockSize == blockSize && 1 <= blockSize <= 255
      requires Stand(kept, cs) && Separate(kept) && AS.Laid(blockSize, cs) && Gone(released)
      modifies this, chunks, Nodes(chunks.shape)
      ensures Valid() && Gone(released)
      ensures state == if cs == [] then AS.NewArena(blockSize, begin)
        else AS.ArenaState(blockSize, cs, cs[0].begin, cs[0].begin)
      ensures forall c <- parts :: c in kept || (fresh(c) && fresh(c.payload))
    {
      Rebuild(kept, cs, begin);
    }

    method Rebuild(kept: seq<Chunk>, ghost cs: seq<ChunkState>, begin: int)
      requires chunks.Valid() && chunks.walking == Repaired && state.blockSize == blockSize && 1 <= blockSize <= 255
      requires Stand(kept, cs) && Separate(kept) && AS.Laid(blockSize, cs)
      modifies this, chunks, Nodes(chunks.shape)
      ensures Valid()
      ensures state == if cs == [] then AS.NewArena(blockSize, begin)
        else AS.ArenaState(blockSize, cs, cs[0].begin, cs[0].begin)
      ensures forall c <- parts :: c in kept || (fresh(c) && fresh(c.payload))
    {
      Drop();
      IndexAll(kept, cs);
      Restart(begin);
    }

    /** What the walk found, in the terms the rebuilding needs. */
    method Gather() returns (kept: seq<Chunk>, ghost released: set<Chunk>)
      requires Valid()
      modifies parts
      ensures chunks.Valid() && chunks.walking == Repaired && state.blockSize == blockSize && 1 <= blockSize <= 255
      ensures Stand(kept, AS.Occupied(state.chunks)) && Separate(kept) && AS.Laid(blockSize, AS.Occupied(state.chunks))
      ensures Emptied(parts, state, released) && Gone(released)
      ensures forall c <- kept :: c in parts
    {
      ghost var cs := state.chunks;
      assert AS.Laid(blockSize, AS.Occupied(cs)) by {
        AS.OccupiedLaid(blockSize, cs);
      }
      ghost var s;
      kept, s := Collect();
      released := s.released;
      assert cs[..s.done] == cs && parts[..s.done] == parts;
    }
  }

  ghost predicate Gone(released: set<Chunk>)
    reads released
  {
    forall c <- released :: !c.live
  }

  /** The released chunks are exactly those without a block in use. */
  ghost predicate Emptied(parts: seq<Chunk>, a: AS.ArenaState, released: set<Chunk>) {
    match a
    case ArenaState(_, cs, _, _) =>
      && |parts| == |cs| && (forall c <- released :: c in parts)
      && (forall j :: 0 <= j < |parts| ==> (parts[j] in released <==> cs[j].Live() == {}))
  }

  /** What a walk over the index has sorted out so far. */
  datatype Sieve = Sieve(done: nat, kept: seq<Chunk>, released: set<Chunk>)

  /** A chunk passed by is released exactly if it had no block in use, and else kept. */
  ghost predicate Sifted(parts: seq<Chunk>, cs: seq<ChunkState>, s: Sieve) {
    match s
    case Sieve(k, kept, released) =>
      && k <= |parts| == |cs| && Separate(kept)
      && (forall c <- kept :: c in parts[..k])
      && (forall c <- released :: c in parts[..k])
      && (forall j :: 0 <= j < k ==> (parts[j] in released <==> cs[j].Live() == {}))
  }

  lemma SiftOne(parts: seq<Chunk>, cs: seq<ChunkState>, s: Sieve)
    requires Sifted(parts, cs, s) && Separate(parts) && s.done < |parts| && cs[s.done].Ok()
    ensures var k, c := s.done, parts[s.done];
      && c !in s.kept && c !in s.released && c.payload !in Payloads(s.kept)
      && (cs[k].Live() != {} ==> Sifted(parts, cs, Sieve(k + 1, s.kept + [c], s.released)))
      && (cs[k].Live() == {} ==> Sifted(parts, cs, Sieve(k + 1, s.kept, s.released + {c})))
      && AS.Occupied(cs[..k + 1]) == AS.Occupied(cs[..k]) + (if cs[k].Live() == {} then [] else [cs[k]])
  {
    var k, c := s.done, parts[s.done];
    LiveCounted(cs[k]);
    AS.OccupiedStep(cs[..k], cs[k]);
    assert cs[..k + 1] == cs[..k] + [cs[k]] && parts[..k + 1] == parts[..k] + [c];
    assert forall d <- parts[..k] :: d != c && d.payload != c.payload;
  }
}
