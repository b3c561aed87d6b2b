# Verification model of the small-object allocator

A Dafny model of the allocator's layers, from the bottom up, with proofs of what each
layer promises to the one above it:

- **Range map** (`ranges`, `shapes`, `rotations`, `treespec`, `iteration`, `avl`, `aswritten`,
  `rangemap`): the heap-allocated search tree over closed address ranges. `Node` objects carry
  the real `top`/`left`/`right`/`height` links, and a ghost flag that is set until their memory is
  given back, as chunks do; `Shape` is the tree as a value, `Ctx` the rest of a tree around one
  subtree. Every pointer method is proved against a function on shapes, and the
  functions against what they mean for the ordered entries.
- **Chunk** (`chunk`): 255 blocks whose free list is threaded through the free blocks' first
  bytes, over a real byte array that the program may overwrite inside its own blocks.
- **Arena** (`arenastate`, `arena`, `arenaruns`): chunk objects indexed by the range map, with
  two remembered chunks. The class methods are proved equal to operations on `ArenaState`;
  theorems about live blocks are proved on those, for single operations and for whole runs.
- **Lock-free list** (`lockfreelist`, `backlinks`) and **pool** (`pool`, `poolinvariant`, `poolruns`,
  `poolthreads`): two transition systems whose actions are atomic accesses and lock sections.
  The pool's actions use the same `ArenaState` operations the arena's methods are proved against.
- **Size routing** (`sizeclasses`, `arithmetic`): rounding by masking and the pool slot.
  `basics` holds what several layers share.

## Code as written, and repairs

The code departs from its own comments in four places. Where that matters the model has both
forms, and says exactly when the form as written does what is promised.

- R1, `chunk::release` (include/chunk.hpp:63): the range test is inverted. `Chunk.Release` has
  the test the comment at lines 55-60 describes; `Chunk.ReleaseAsWritten` and
  `Arena.FreeAsWritten` have the test as written. Its answer is the documented one only for the
  one-past-the-end pointer, and no block is ever freed.
- R2, `inc_node` (include/range_map.hpp:297-309) climbs at most two links; the repaired form
  climbs while the node is a right child. `RangeMap.Iterate` says for which trees it matters, and
  `SixMissThree` is a map of six entries, as the code builds it, of which three are missed.
- R3, `balance` (include/range_map.hpp:274-284) tests and rotates the child that is not lifted,
  and a new leaf stores height 0 (line 202). `AsWrittenLevels` says exactly when one step as
  written leaves a subtree level, and `InsertedAsJudged` when a whole insertion into a level tree
  does: `Judged` follows the search path with the real and stored heights, and carries along
  whether the subtree below is flawed, since a later step can mend the flaw of an earlier one.
  `AsWrittenMakesChain` is an insertion sequence that leaves a chain.
- R4, `POOLS_COUNT` (src/object_allocator.cpp:12) is one short; `SlotInRange` gives the sizes
  that have a pool in either form.

Order, contents and memory safety of the tree are proved for both editions of R2 and R3, which a
map chooses separately. The arena and the pool need R1 and R2; the arena's index may balance
either way.

The lock-free list's back links are right only by chance of interleaving: `BackLinkDecided` says
exactly which are, and `SerialMirrors` that all are when pushes do not overlap. The pool never
follows them.

## Assumptions

- The system places chunks so that header and payload overlap no chunk in use, and headers are
  not empty (`HeadersKeepClear`). The place is a parameter of the operations that may need one.
  `shrink` may get back memory that it has just given up.
- Block sizes are 1 to 255, as the chunk constructor takes them in a byte (src/chunk.cpp:7).
- The program frees only blocks it holds, once, from a thread that has an arena
  (include/pool.hpp:27).
- Atomics are sequentially consistent; the reader/writer lock excludes; a thread taking back a
  block of its own arena, which the code does without the lock, overlaps no other thread's
  access to that arena.

## Model

| member | source | states |
|---|---|---|
| Ranges.Range.CompareTo | include/range_map.hpp:108-115 | the sign is 0 exactly when one range covers the other, and otherwise which of them strictly precedes in both bounds |
| Ranges.Range.CompareToKey | include/range_map.hpp:100-106 | 0 exactly for a contained key; otherwise no later (earlier) range contains the key either |
| Rotations.RotateLeft | include/range_map.hpp:331-339 | the pointer code links exactly the rotated shape: parent links, child links and heights |
| Rotations.RotateRight | include/range_map.hpp:321-329 | the mirror image, lifting the right child |
| Rotations.BalanceInPlace | include/range_map.hpp:270-288 | the pointer code performs the balancing step of either edition, without touching a missing child |
| Rotations.BalanceRearranges | include/range_map.hpp:270-288 | a balancing step keeps every node, once, in the same order, whatever the stored heights led it to do |
| Rotations.RebalanceFrom | include/range_map.hpp:586-600 | the walk to the root leaves a tree with exact parent links everywhere, linked as rebalancing every subtree on the path makes it |
| Rotations.RebalancedRearranges | include/range_map.hpp:586-600 | the whole walk keeps every node, once, in order |
| TreeSpec.RefusedIffClash | include/range_map.hpp:544-568 | following one search path meets a clashing entry exactly when some entry anywhere covers or is covered by the new range |
| TreeSpec.InsertedIsPlaced | include/range_map.hpp:529-568 | insertion through all rotations puts the new entry at the one place that keeps both bounds increasing, and changes nothing else |
| TreeSpec.HangingLeaf | include/range_map.hpp:544-600 | hanging a leaf at the end of the path and walking up from its parent is the same as the recursive insertion that balances on the way back |
| TreeSpec.ErasedDrops | include/range_map.hpp:649-719 | erasure, grafting the right child under the last node of the left, drops exactly the erased entry from the order |
| TreeSpec.ErasedNodes | include/range_map.hpp:649-719 | every other node stays in the tree, once |
| RangeMaps.RangeMap.Find | include/range_map.hpp:631-647 | returns an entry that contains the key, or none exactly when no entry does, also for overlapping entries |
| RangeMaps.RangeMap.Insert | include/range_map.hpp:529-600 | refuses exactly on a clash and then changes nothing; otherwise adds one fresh node in order and leaves the tree the recursive form builds |
| RangeMaps.RangeMap.Erase | include/range_map.hpp:496-502 | takes out exactly the given entry and gives its node back unless it was the only one; the end position takes out nothing |
| RangeMaps.RangeMap.EraseNode | include/range_map.hpp:649-719 | all four cases of the pointer code leave the erased shape, with exact parent links and live nodes; the erased node is given back before rebalancing, which relies on none of its fields |
| RangeMaps.RangeMap.DestroyTree | include/range_map.hpp:602-629 | terminates, gives back every node but the root, each while it is live and so exactly once, relies on no such node's fields, leaves the root childless |
| RangeMaps.RangeMap.Clear | include/range_map.hpp:504-509 | empties the map and gives back each of its nodes once |
| RangeMaps.RangeMap.Next | include/range_map.hpp:290-312 | the next entry in order; as written the end instead, exactly at the end of a chain of right links |
| RangeMaps.RangeMap.Iterate | include/range_map.hpp:397-402 | visits a prefix of the entries, as written up to the first whose successor lies too far up; all of them exactly if repaired or no left child starts a chain of right links of more than two nodes |
| RangeMaps.RangeMap.SixMissThree | include/range_map.hpp:290-312 | a map that six insertions as written build, over which iteration as written visits three entries and misses three |
| RangeMaps.RangeMap.SpinesDecide | include/range_map.hpp:290-312 | the trees without such a chain are exactly those where every node but the last finds its successor |
| Iteration.SuccessorOf | include/range_map.hpp:290-312 | what follows a node: the first node of its right subtree, or the nearest ancestor it lies left of |
| Balancing.InsertedAvl | include/range_map.hpp:270-288 | repaired insertion keeps stored heights exact and siblings within one level, and grows the tree by at most one level |
| Balancing.AvlHeightLogarithmic | include/range_map.hpp:316-356 | fewer than 2^k entries make at most 2k - 2 levels |
| Balancing.AvlMapFitsInt8 | include/range_map.hpp:346-356 | repaired, no stored height leaves int8_t for any 64-bit count of entries, with one level to spare |
| Balancing.AvlStepFitsInt8 | include/range_map.hpp:270-288 | nor does any height a balancing step writes before or between its rotations |
| Balancing.SmallMapFitsInt8 | include/range_map.hpp:346-356 | in either edition, after any inserts and erases, no stored height leaves int8_t up to 127 entries |
| Balancing.SmallStepFitsInt8 | include/range_map.hpp:270-288 | nor does any height a balancing step of either edition writes on the way |
| Balancing.InsertedComputes | include/range_map.hpp:586-600 | insert-only, either edition: every inner height is computed from its children and leaves store 0 or 1 |
| Balancing.ComputedIsClose | include/range_map.hpp:346-351 | such stored heights are the real ones or one less |
| AsWrittenBalancing.AsWrittenLevels | include/range_map.hpp:270-288 | over the subtrees that insertion as written builds, a step leaves a level subtree exactly when the lifted child does not lean inwards and the other may be turned, or none is lifted and none has to be |
| AsWrittenBalancing.StepIs | include/range_map.hpp:270-288 | which flaw a step as written leaves, for children with flaws of their own, from the real and stored heights of children and grandchildren |
| AsWrittenBalancing.InsertedAsJudged | include/range_map.hpp:529-600 | insertion as written into a level tree leaves it level exactly when the steps along the search path judge it sound, whatever they break and mend on the way |
| AsWrittenBalancing.AsWrittenMakesChain | include/range_map.hpp:198-204 | three ascending insertions as written leave a chain |
| Chunks.Chunk.constructor | src/chunk.cpp:7-18 | the loop threads a free list of all 255 blocks, in order, whatever memory held and whatever the last link is |
| Chunks.Chunk.Allocate | include/chunk.hpp:46-54 | hands out the first free block and advances along its link byte; null exactly when none is free |
| Chunks.Chunk.Release | include/chunk.hpp:55-70 | with R1: takes back exactly the pointers of this chunk, the block becomes first in the list, and no byte outside it changes |
| Chunks.Chunk.UserWrite | include/chunk.hpp:46-70 | any write inside a block in use leaves the free list intact |
| Chunks.Chunk.Empty | include/chunk.hpp:72-75 | true exactly when no block is in use |
| Chunks.Chunk.ReleaseAsWritten | include/chunk.hpp:61-70 | as written: answers as documented only for the one-past-the-end pointer; an accepted pointer is written through outside the chunk and the free count stops matching the list |
| Chunks.AllocateReleaseInverse | include/chunk.hpp:46-70 | release undoes allocate and allocate after release returns the same block |
| Chunks.IndexOfAddr | include/chunk.hpp:66-67 | the division in release inverts the multiplication in allocate, within a byte |
| Chunks.LiveCounted | include/chunk.hpp:72-75 | blocks in use are 255 less the free count |
| Chunks.AllocateAddsOne | include/chunk.hpp:46-54 | allocation brings exactly one block, not in use before, into use |
| Chunks.ReleaseRemovesOne | include/chunk.hpp:61-70 | release ends the use of exactly one block |
| ArenaStates.MallocAddsOne | src/arena.cpp:41-72 | malloc brings exactly one block into use, keeps the layout, adds a chunk only when all are full, stays with the remembered chunk while it has room and else takes the lowest that has, and remembers the block's chunk |
| ArenaStates.FreeRemovesOne | include/arena.hpp:72-79 | freeing a live block succeeds, ends exactly that block's life, and remembers the block's chunk for release |
| ArenaStates.FreeForeign | src/arena.cpp:74-80 | a pointer no indexed range contains is turned away and nothing changes |
| ArenaStates.FreePastEnd | src/arena.cpp:74-80 | the one-past-the-end pointer of a chunk is reported freed and nothing changes |
| ArenaStates.ShrinkKeepsLive | src/arena.cpp:82-119 | shrink keeps every live block, keeps exactly the chunks that have one, leaves one new chunk when there is none, and remembers the first chunk for both purposes |
| ArenaStates.LiveBlocksApart | src/arena.cpp:8-13 | live blocks never overlap and lie inside the chunk they are indexed under |
| ArenaStates.LiveUsed | include/chunk.hpp:72-75 | the free counts of the chunks account for every live block |
| Arenas.Arena.constructor | src/arena.cpp:21-34 | one new indexed chunk, remembered for both purposes |
| Arenas.Arena.TryToAlloc | src/arena.cpp:41-47 | allocates from one chunk and remembers it exactly when it had a free block |
| Arenas.Arena.Malloc | src/arena.cpp:49-72 | does what the operation on values does, through the range map's iterator; its insertion is never refused |
| Arenas.Arena.Free | include/arena.hpp:72-79 | with R1: does what the operation on values does, through the remembered chunk or the range map's lookup |
| Arenas.Arena.FreeAsWritten | include/arena.hpp:72-79 | as written: reports success for every live block and frees none; nothing changes if the block was the remembered chunk's, else that chunk's fields are corrupted, a byte goes astray and every other chunk stays as it was |
| Arenas.Arena.Shrink | src/arena.cpp:82-119 | with R2: rebuilds the index as the operation on values says; gives back exactly the chunks without a block in use, each once, and uses none of them afterwards |
| Arenas.Arena.Index | src/arena.cpp:68-68 | indexing a chunk succeeds, in address order, and keeps an index that balances as repaired balanced |
| ArenaRuns.RunSound | src/arena.cpp:49-119 | in every run of malloc, free and shrink the live blocks are exactly those the program holds, disjoint, inside indexed chunks, and counted by the free counts |
| ArenaRuns.MallocsPack | src/arena.cpp:49-72 | a run of mallocs alone uses as few chunks as hold its blocks |
| LockFreeLists.StepInv | include/lockfreelist.hpp:297-313 | every atomic step, and every spurious failure, keeps the forward chain equal to the published nodes |
| LockFreeLists.RunInv | include/lockfreelist.hpp:297-313 | after any interleaving the chain from the head is the nodes whose compare-exchange succeeded, newest first, once each, the earlier ones untouched |
| LockFreeLists.PushNotLost | include/lockfreelist.hpp:297-313 | after any run, a node created in it holds its element and is in the list unless its thread is still at work on it |
| LockFreeLists.NothingElsePushed | include/lockfreelist.hpp:297-313 | the list gains only nodes that threads had created |
| LockFreeLists.PushAlone | include/lockfreelist.hpp:297-313 | left alone, a thread finishes its push from any point of it, in at most seven accesses |
| LockFreeLists.SnapshotStable | include/lockfreelist.hpp:96-99 | a traversal from any earlier link meets exactly the nodes of that time, whatever was pushed since |
| BackLinks.BackLinkDecided | include/lockfreelist.hpp:297-313 | a published node's neighbour links back to it exactly if the thread that published it was the last to exchange that back link |
| BackLinks.SerialMirrors | include/lockfreelist.hpp:297-313 | when no thread loads the head while another is between its load and its publication, every back link mirrors the forward link |
| BackLinks.BackLinksUnreliable | include/lockfreelist.hpp:303-305 | an interleaving that leaves a back link pointing at an unpublished node |
| PoolInvariant.StepInv | src/pool.cpp:6-56 | every action of reserving, allocating, freeing, shrinking and exiting keeps arenas apart, reservations exclusive and frees reachable |
| PoolInvariant.AskNextReaches | src/pool.cpp:48-56 | asking the next arena: the owner frees the block, any other declines unchanged, and the list never runs out first |
| PoolRuns.StepMoves | include/pool.hpp:19-31 | an action hands out only a block nobody holds, ends only a block in use, and leaves every other block of every arena alone |
| PoolRuns.RunSound | include/pool.hpp:19-31 | in every interleaving the live blocks of all arenas are exactly those the program holds, no two of them overlap, and every arena's free counts account for its own |
| PoolRuns.ReservationExclusive | src/pool.cpp:6-10 | in every reachable state no two threads hold one arena, the flagged arenas are exactly the held ones, and every arena is listed or about to be pushed by its creator |
| PoolThreads.CreatesWhenRefused | src/pool.cpp:30-45 | a thread is about to make an arena only when it tried each arena listed when it started and found it reserved |
| PoolThreads.FreeArenaTaken | include/arena.hpp:92-94 | an arena without a holder goes to the next thread that tries it |
| PoolThreads.ExitShrinks | src/pool.cpp:6-10 | on exit a thread's arena keeps its live blocks and exactly the chunks that have one, or gets one new chunk |
| PoolThreads.ExitLeavesArena | src/pool.cpp:6-10 | then the thread holds nothing and the arena's flag is clear |
| PoolThreads.FreeReturnsDone | include/pool.hpp:25-31 | a thread's free does not return before one of its actions has ended the block's life, whosever block it is |
| PoolThreads.ListGrows | src/pool.cpp:41-44 | the arena list changes only at its front |
| PoolThreads.CreatedSize | src/pool.cpp:41-44 | an arena serves the block size it was made for, ever after |
| PoolRuns.MissFreeReaches | src/pool.cpp:48-56 | a thread asking around for another thread's block frees it before its snapshot of the list runs out, whatever the others do |
| PoolRuns.MallocAlone | src/arena.cpp:49-72 | without interference the lock-section actions add up to the sequential malloc |
| SizeClasses.MaskDropsRemainder | include/object_allocator.hpp:12-15 | masking with ones over k zeros drops the remainder by 2^k |
| SizeClasses.AlignUpIsLeast | include/object_allocator.hpp:12-15 | rounding up gives the least multiple not below the size, exactly unless the 64-bit addition wraps, and then 0 |
| SizeClasses.SlotInRange | include/object_allocator.hpp:47-51 | a size up to 16 words has a pool exactly when above one word and at most 15 words as written, 16 with R4, and the pools serve two words, three words and so on in order |
| SizeClasses.SlotsShared | include/object_allocator.hpp:47-51 | two sizes share a pool exactly when they round up equally |

## Left out

- RangeMaps.RangeMap.Insert: heights are unbounded integers, because `SmallStepFitsInt8` and `AvlStepFitsInt8` show when they fit `int8_t`; wrap-around in an unrepaired map of more than 127 entries is not modelled.
- RangeMaps.RangeMap.Erase: the node of a map's only entry is not destroyed, as in the code.
- LockFreeLists.StepInv: modelled on values as a transition system, since the list's point is its interleavings; node allocation and the spin wait are not part of it.
- PoolInvariant.StepInv: `malloc` creates a chunk and takes its first block outside the lock; here that is one action with the insertion, since nobody else can reach the chunk before. Publishing on the list is one action, as `RunInv` justifies.
- Chunks.Chunk.ReleaseAsWritten: the memory outside the chunk that it writes to is reported, not modelled.
- `list::erase` and the list's destruction: the pool never erases, and destruction is sequential.
- The pool's destructor and process exit: single-threaded teardown.
- `object_allocator::instance`: its creation is a lock around one check of a pointer.
- `object`'s reference count, `operator new` and `delete`, the new-handler loop: library-bound.
- Platform locks and system allocators: foreign calls, modelled by their contracts.
- Weak memory orderings: every atomic is sequentially consistent.
- Moves, copies and swaps of ranges, pairs and nodes, and the synchronized range map: plumbing.
