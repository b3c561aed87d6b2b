/**
 A chunk: 255 blocks of equal size whose free list is threaded through the
 free blocks themselves, one link byte at the start of each.
 */
module Chunks {
  import opened Basics
  import opened Arithmetic

  const MAX_BLOCKS: nat := 255

  newtype byte = x: int | 0 <= x < 256

  // ------------------------------------------------------- a chunk as a value

  /** A chunk by its free list: the indices of its free blocks, next to be handed out first. */
  datatype ChunkState = ChunkState(begin: int, blockSize: nat, free: seq<nat>) {

    ghost predicate Ok() {
      && 1 <= blockSize <= 255
      && |free| <= MAX_BLOCKS
      && (forall i :: 0 <= i < |free| ==> free[i] < MAX_BLOCKS)
      && (forall i, j :: 0 <= i < j < |free| ==> free[i] != free[j])
    }

    function End(): int {
      begin + MAX_BLOCKS * blockSize
    }

    predicate Within(ptr: int) {
      begin <= ptr < End()
    }

    function Addr(index: nat): int {
      begin + index * blockSize
    }

    function Index(ptr: int): int
      requires blockSize > 0
    {
      (ptr - begin) / blockSize
    }

    /** The blocks in use, by index and by address. */
    function Taken(): set<nat> {
      Others(free, MAX_BLOCKS)
    }

    ghost function Live(): set<int> {
      set i | i in Taken() :: Addr(i)
    }

    function Allocated(): ChunkState
      requires free != []
    {
      this.(free := free[1..])
    }

    function Released(ptr: int): ChunkState
      requires blockSize > 0 && Within(ptr)
    {
      this.(free := [Index(ptr) as nat] + free)
    }
  }

  /** The numbers below `n` that a list leaves out. */
  function Others(xs: seq<nat>, n: nat): set<nat> {
    set i: nat | i < n && i !in xs
  }

  function NewState(begin: int, blockSize: nat): ChunkState {
    ChunkState(begin, blockSize, seq(MAX_BLOCKS, i => i))
  }

  /** The division in `release` inverts the multiplication in `allocate`. */
  lemma IndexOfAddr(c: ChunkState, i: nat)
    requires c.blockSize > 0 && i < MAX_BLOCKS
    ensures c.Within(c.Addr(i)) && c.Index(c.Addr(i)) == i
  {
    Scale(i, MAX_BLOCKS, c.blockSize);
    IndexInverse(i, 0, c.blockSize);
  }

  lemma {:induction false} AllOthers(n: nat)
    ensures |Others([], n)| == n
  {
    if n > 0 {
      AllOthers(n - 1);
      assert Others([], n) == Others([], n - 1) + {n - 1};
    }
  }

  lemma {:induction false} CountOthers(xs: seq<nat>, n: nat)
    requires forall i :: 0 <= i < |xs| ==> xs[i] < n
    requires forall i, j :: 0 <= i < j < |xs| ==> xs[i] != xs[j]
    ensures |xs| <= n && |Others(xs, n)| == n - |xs|
  {
    if xs == [] {
      AllOthers(n);
    } else {
      CountOthers(xs[1..], n);
      assert xs[0] !in xs[1..];
      assert Others(xs[1..], n) == Others(xs, n) + {xs[0]};
    }
  }

  lemma {:induction false} SameSize(a: set<nat>, f: int -> int)
    requires forall i, j :: i in a && j in a && f(i) == f(j) ==> i == j
    ensures |set i | i in a :: f(i)| == |a|
  {
    if a == {} {
      assert (set i | i in a :: f(i)) == {};
    } else {
      var x :| x in a;
      var b := a - {x};
      SameSize(b, f);
      assert (set i | i in a :: f(i)) == (set i | i in b :: f(i)) + {f(x)};
    }
  }

  /** A chunk has as many live blocks as its free count falls short of 255. */
  lemma LiveCounted(c: ChunkState)
    requires c.Ok()
    ensures |c.Live()| == MAX_BLOCKS - |c.free|
  {
    CountOthers(c.free, MAX_BLOCKS);
    forall i, j | i in c.Taken() && j in c.Taken() && c.Addr(i) == c.Addr(j) ensures i == j {
      IndexOfAddr(c, i);
      IndexOfAddr(c, j);
    }
    var f := (i: int) => c.begin + i * c.blockSize;
    SameSize(c.Taken(), f);
    assert c.Live() == set i | i in c.Taken() :: f(i);
  }

  lemma LiveWithin(c: ChunkState, ptr: int)
    requires c.Ok() && ptr in c.Live()
    ensures c.Within(ptr) && ptr + c.blockSize <= c.End()
    ensures 0 <= c.Index(ptr) < MAX_BLOCKS && c.Index(ptr) in c.Taken() && ptr == c.Addr(c.Index(ptr))
  {
    var i :| i in c.Taken() && ptr == c.Addr(i);
    IndexOfAddr(c, i);
    Scale(i, MAX_BLOCKS, c.blockSize);
  }

  /** Different live blocks of a chunk do not overlap. */
  lemma BlocksApart(c: ChunkState, p: int, q: int)
    requires c.Ok() && p in c.Live() && q in c.Live() && p != q
    ensures p + c.blockSize <= q || q + c.blockSize <= p
  {
    LiveWithin(c, p);
    LiveWithin(c, q);
    var i, j := c.Index(p), c.Index(q);
    if i < j {
      Scale(i, j, c.blockSize);
    } else {
      Scale(j, i, c.blockSize);
    }
  }

  /** Allocation hands out one block that was not live. */
  lemma AllocateAddsOne(c: ChunkState)
    requires c.Ok() && c.free != []
    ensures c.Allocated().Ok() && c.Addr(c.free[0]) !in c.Live()
    ensures c.Allocated().Live() == c.Live() + {c.Addr(c.free[0])}
  {
    var d, x := c.Allocated(), c.free[0];
    assert d.Taken() == c.Taken() + {x} by {
      assert x !in d.free;
    }
    if c.Addr(x) in c.Live() {
      LiveWithin(c, c.Addr(x));
      IndexOfAddr(c, x);
    }
    assert forall i :: c.Addr(i) == d.Addr(i);
  }

  /** Releasing a live block takes out exactly that block. */
  lemma ReleaseRemovesOne(c: ChunkState, ptr: int)
    requires c.Ok() && ptr in c.Live()
    ensures c.Within(ptr) && c.Released(ptr).Ok() && c.Released(ptr).Live() == c.Live() - {ptr}
  {
    LiveWithin(c, ptr);
    CountOthers(c.free, MAX_BLOCKS);
    var x: nat := c.Index(ptr);
    var d := c.Released(ptr);
    assert forall i :: i in d.free <==> i == x || i in c.free;
    assert d.Taken() == c.Taken() - {x};
    assert |d.free| <= MAX_BLOCKS by {
      CountOthers(d.free, MAX_BLOCKS);
    }
    forall p | p in d.Live() ensures p in c.Live() - {ptr} {
      LiveWithin(c, ptr);
      var i :| i in d.Taken() && p == d.Addr(i);
      IndexOfAddr(c, i);
    }
    forall p | p in c.Live() - {ptr} ensures p in d.Live() {
      LiveWithin(c, p);
      assert c.Index(p) in d.Taken() && p == d.Addr(c.Index(p));
    }
  }

  /** Release undoes allocate, and allocate undoes release. */
  lemma AllocateReleaseInverse(c: ChunkState)
    requires c.Ok()
    ensures c.free != [] ==> c.Within(c.Addr(c.free[0])) && c.Allocated().Released(c.Addr(c.free[0])) == c
    ensures forall ptr :: ptr in c.Live() ==>
      c.Within(ptr) && c.Released(ptr).Allocated() == c && c.Addr(c.Released(ptr).free[0]) == ptr
  {
    if c.free != [] {
      IndexOfAddr(c, c.free[0]);
      assert [c.free[0]] + c.free[1..] == c.free;
    }
    forall ptr | ptr in c.Live()
      ensures c.Within(ptr) && c.Released(ptr).Allocated() == c && c.Addr(c.Released(ptr).free[0]) == ptr
    {
      LiveWithin(c, ptr);
      assert ([c.Index(ptr) as nat] + c.free)[1..] == c.free;
    }
  }

  // ------------------------------------------------------ the chunk in memory

  class Chunk {
    const begin: int
    const end: int
    const payload: array<byte>
    ghost const blockSize: nat
    var freeBlocks: byte
    var position: byte
    ghost var free: seq<nat>

    /** The chunk's memory has not been given back to the system. */
    ghost var live: bool

    /** The chunk as a value. */
    ghost function State(): ChunkState
      reads this
    {
      ChunkState(begin, blockSize, free)
    }

    /** The byte at the start of a block. */
    ghost function Link(index: nat): int
      reads payload
    {
      if index * blockSize < payload.Length then payload[index * blockSize] as int else 0
    }

    /**
     Each free block but the last links to the next one.  Nothing is said of
     the last link, nor of any byte of a block in use.
     */
    ghost predicate Valid()
      reads this, payload
    {
      && live && State().Ok()
      && end == State().End() && payload.Length == MAX_BLOCKS * blockSize
      && freeBlocks as int == |free|
      && (free != [] ==> position as int == free[0])
      && (forall i {:trigger Link(free[i])} :: 0 <= i < |free| - 1 ==> Link(free[i]) == free[i + 1])
    }

    constructor (blockSize: nat, begin: int)
      requires 1 <= blockSize <= 255
      ensures Valid() && fresh(payload)
      ensures State() == NewState(begin, blockSize)
    {
      this.begin := begin;
      this.end := begin + MAX_BLOCKS * blockSize;
      this.blockSize := blockSize;
      this.freeBlocks := 255;
      this.position := 0;
      this.payload := new byte[MAX_BLOCKS * blockSize];
      this.free := seq(MAX_BLOCKS, i => i);
      this.live := true;
      new;
      var p := 0;
      var i := 1;
      while i < MAX_BLOCKS
        invariant 1 <= i <= MAX_BLOCKS && p == (i - 1) * blockSize
        invariant live && State() == NewState(begin, blockSize) && freeBlocks == 255 && position == 0
        invariant forall j {:trigger Link(j)} :: 0 <= j < i - 1 ==> Link(j) == j + 1
      {
        ThreadLink(p, i);
        p := p + blockSize;
        i := i + 1;
      }
    }

    /** Links the block at `p` to block `i`. */
    method ThreadLink(p: nat, i: nat)
      requires 1 <= blockSize && payload.Length == MAX_BLOCKS * blockSize
      requires 1 <= i < MAX_BLOCKS && p == (i - 1) * blockSize
      requires forall j {:trigger Link(j)} :: 0 <= j < i - 1 ==> Link(j) == j + 1
      modifies payload
      ensures forall j {:trigger Link(j)} :: 0 <= j < i ==> Link(j) == j + 1
    {
      Scale(i - 1, MAX_BLOCKS, blockSize);
      ghost var links := payload[..];
      payload[p] := i as byte;
      forall j {:trigger Link(j)} | 0 <= j < i ensures Link(j) == j + 1 {
        if j < i - 1 {
          Scale(j, i - 1, blockSize);
          assert old(Link(j)) == j + 1;
          assert links[j * blockSize] as int == j + 1;
        }
      }
    }

    /** Takes the first free block; null when there is none. */
    method Allocate(size: nat) returns (result: Option<int>)
      requires Valid() && size == blockSize
      modifies this
      ensures Valid()
      ensures old(free) == [] ==> result == None && State() == old(State())
      ensures old(free) != [] ==>
        result == Some(State().Addr(old(free)[0])) && State() == old(State()).Allocated()
    {
      if freeBlocks == 0 {
        return None;
      }
      Scale(position as int, MAX_BLOCKS, size);
      result := Some(begin + position as int * size);
      ghost var was := free;
      assert |was| > 1 ==> Link(was[0]) == was[1];
      position := payload[position as int * size];
      freeBlocks := freeBlocks - 1;
      free := free[1..];
      assert forall i {:trigger free[i]} :: 0 <= i < |free| ==> free[i] == was[i + 1];
    }

    /** No byte but those of the block at `ptr` is different from before. */
    ghost predicate OnlyBlock(ptr: int, before: seq<byte>)
      reads payload
    {
      |before| == payload.Length &&
      forall i :: 0 <= i < payload.Length && !(ptr <= begin + i < ptr + blockSize) ==> payload[i] == before[i]
    }

    /**
     Puts a block back at the front of the free list, if it is from this chunk.
     The other blocks keep what the program has written in them.
     */
    method Release(ptr: int, size: nat) returns (ok: bool)
      requires Valid() && size == blockSize
      requires State().Within(ptr) ==> ptr in State().Live()
      modifies this, payload
      ensures Valid()
      ensures ok <==> State().Within(ptr)
      ensures State() == if ok then old(State()).Released(ptr) else old(State())
      ensures OnlyBlock(ptr, old(payload[..]))
    {
      if ptr < begin || ptr >= end {
        return false;
      }
      ghost var was, links := free, payload[..];
      LiveWithin(State(), ptr);
      ReleaseRemovesOne(State(), ptr);
      var p := (ptr - begin) / size;
      assert ptr - begin == p * size;
      payload[ptr - begin] := position;
      position := p as byte;
      freeBlocks := freeBlocks + 1;
      free := [p as nat] + free;
      forall i {:trigger Link(free[i])} | 0 <= i < |free| - 1 ensures Link(free[i]) == free[i + 1] {
        Scale(free[i], MAX_BLOCKS, size);
        if i > 0 {
          assert was[i - 1] == free[i] && was[i] == free[i + 1];
          assert old(Link(was[i - 1])) == was[i];
          assert free[i] * size != p * size by {
            IndexOfAddr(State(), free[i]);
            IndexOfAddr(State(), p);
          }
        }
      }
      return true;
    }

    /** No block is in use. */
    method Empty() returns (empty: bool)
      requires Valid()
      ensures empty <==> State().Live() == {}
    {
      empty := freeBlocks == 255;
      LiveCounted(State());
    }

    /** The program may write what it likes into a block it holds. */
    method UserWrite(ptr: int, offset: nat, value: byte)
      requires Valid() && ptr in State().Live() && offset < blockSize
      modifies payload
      ensures Valid() && ptr - begin + offset < payload.Length
      ensures payload[..] == old(payload[..])[ptr - begin + offset := value]
    {
      LiveWithin(State(), ptr);
      ghost var x: nat := State().Index(ptr);
      payload[ptr - begin + offset] := value;
      forall i {:trigger Link(free[i])} | 0 <= i < |free| - 1 ensures Link(free[i]) == free[i + 1] {
        assert old(Link(free[i])) == free[i + 1];
        IndexInverse(x, offset, blockSize);
        IndexInverse(free[i], 0, blockSize);
      }
    }

    /**
     `Release` with its guard as written, which turns away the pointers the
     chunk owns and accepts the others.  An accepted pointer is written
     through, outside the chunk; that write is returned.
     */
    method ReleaseAsWritten(ptr: int, size: nat) returns (ok: bool, stray: Option<(int, byte)>)
      requires Valid() && size == blockSize
      modifies this
      ensures State() == old(State()) && live
      ensures (ok <==> State().Within(ptr)) <==> ptr == end
      ensures !ok ==> Valid() && stray == None && freeBlocks == old(freeBlocks) && position == old(position)
      ensures ok ==> !Valid() && stray == Some((ptr, old(position)))
      ensures ok ==> freeBlocks as int == (old(freeBlocks) as int + 1) % 256
      ensures ok ==> position as int == ((ptr - begin) % SIZE_T) / size % 256
    {
      if ptr <= end && ptr >= begin {
        return false, None;
      }
      stray := Some((ptr, position));
      var p := ((ptr - begin) % SIZE_T) / size;
      position := (p % 256) as byte;
      freeBlocks := ((freeBlocks as int + 1) % 256) as byte;
      return true, stray;
    }
  }
}
