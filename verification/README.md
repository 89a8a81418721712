# A model of the shared-memory allocator

The repository is a `malloc` whose heap lives in System V shared memory and is used by several
processes at once. This project models its four stateful layers in Dafny and proves what they keep.

| layer | source | modules |
|---|---|---|
| intrusive red-black tree, updated in place through parent links | `src/rbtree.h` | `Basics`, `RedBlackShape`, `RedBlackMemory`, `RedBlackTree`, `KeyOrder`, `RedBlackSearch` |
| page allocator of a medium chunk: bitmaps, tree of free units, cached maximum | `src/chunk_medium.c`, `src/shm_util.h` | `Bitmap`, `MediumUnits`, `MediumChunk`, `MediumRuns`, `MediumPool` |
| index of chunks by what they can serve | `src/shm_chunk.c` | `ChunkPool` |
| runs of small slots, their pools as mergeable heaps | `src/chunk_small.c`, `src/shm_tree.c`, `src/shm_tree.h` | `RunHeap`, `RunPool`, `RunRepush`, `SmallRun`, `SmallState`, `SmallHeap` |
| table of arenas, and each process's cache of mappings | `src/shm_context.c`, `src/shm_malloc.c`, `src/shm_malloc_inc.h` | `ArenaTable`, `MappingCache` |
| the whole heap behind `malloc_arena` and `free_arena` | `src/shm_context.c` | `WholeHeap`, `WholeFree`, `Context` |
| the calls a program makes, on one heap | `src/shm_malloc.c` | `SharedMalloc` |
| heap and mappings together, and runs of calls of any processes from nothing | `src/shm_context.c`, `src/shm_malloc.c` | `HeapMappings`, `KernelSteps`, `CallSteps`, `SharedRuns` |

## How it is modelled

Shared structures are classes whose fields are updated assignment by assignment as in C. Nodes are
named by integers, and the memory of a structure is a map from name to record, so links are numbers
and a wrong link is a wrong number. Each class ties its fields to a mathematical value:

* `RBTree` to an inductive tree, with a zipper (`Ctx`) for the focus of both fix loops and the stack
  sentinel of the deletion as a node (`ENODE`) whose own name is null;
* `Chunk` to the sequence of its units, from which starts, used starts, free starts, live blocks,
  free pages and largest free unit are read off;
* `Pool` to a tree of runs, `Allocator` to the state `Small` of all runs, and `Context` to `Whole`,
  in which `LiveAt` says who holds which bytes;
* `Machine` to `World`, the table, the caches of all processes and what the kernel knows.

Each C assertion is either proved to hold or returned as a failure (`AssertionFailed`, `Aborted`).
The kernel appears through its answers: a new segment has an id no living segment has, a mapping is
at an address that is free in the process once the stale mapping of the step has been given up (it may
be the same address again), a removed segment lives until nobody maps it. Steps of
different processes are atomic, because the code runs them under one lock.

Everything comes together in `SharedRuns.Run`: any list of calls (`shm_init`, `shm_malloc`, `shm_free`,
`shm_realloc`, `shm_get_addr`, and writes into blocks that are held) of any processes, from a heap that
has just been made, with any kernel that keeps its promises. The code is proved to follow a machine on
values: `CallSteps.Leads` says what each call does to the heap, to the mappings of all processes and to
the record of held blocks, and what it answers. `Run` returns the answers, and its contract has the states
between the calls. Each call leads from one state to the next as its answer says. In every state all
invariants of all layers hold, the record is exactly the blocks that are held, each at least as long as
asked for, and every process that takes part can reach each of them. The record and the processes at the
end are what the calls and answers alone say (`Replay`). A call stops its process exactly as
`SharedRuns.Stops` says, and the run ends there, since the process keeps the lock. Which arenas a call looks
at, and so maps again if it has to, is left open: any.

## Where the code does not do what it is for

The code is modelled as it is written. These are the places where that differs from its evident
intent, each with a run or value that shows it and the exact condition under which it works.

* `medium_tree_compare` keeps a difference in an unsigned variable, so it is positive whenever the
  sizes differ (`MediumChunk.ComparatorsAgree`). The tree is therefore proved for any comparator.
  With the order by size the assertions of the allocation hold for exactly the requests the cached
  maximum admits (`ServesExactly`). As written, the search takes the first unit in tree order whatever
  its size (`ServesAsWritten`); a run of four calls ends in an assertion with 253 pages free in one unit
  (`MediumRuns.AbortingRun`), and `malloc_arena` ends in that assertion exactly if the first unit of the
  chunk it picks is too short (`Context.Context.MallocArena`).
* The cached maximum of a medium chunk is the largest free unit at the start, and a free keeps that
  under any comparator. An allocation keeps it if and only if the unit taken was smaller than the maximum
  or the last unit in tree order is a largest one afterwards (`MediumChunk.Chunk.Malloc`); with the order
  by size that is always so. As written it is so if and only if, before the call, the first unit is
  smaller than the maximum, or is the only one, or no other unit nor what is left of it is larger than
  the last one (`KeepsMaximum`, `MediumChunk.Chunk.WrittenLast`). A run of six calls leaves a cached
  maximum of 1 with 252 pages free (`MediumRuns.StaleMaximumRun`).
* `shm_tree_pop` leaves the links of the run it takes out. Putting a run back gives, if the merge ends
  at all, a heap of the right runs if and only if the run has no links, wherever they lead
  (`RunRepush.PushExact`), and a run taken out has none if and only if it was alone
  (`RunPool.Pool.Pop`). Two runs suffice for a run that is its own child (`RunRepush.TwoRuns`), and for a
  full run at the root of its pool (`RunRepush.EmptiedPool`). The pools have a switch, `clears`, for a
  pop that clears the links. With it, whoever holds a block may free it. As written, `linked` is the
  exact set of the full runs that still have links (`SmallHeap.Allocator.LinkedExact`); a run joins it
  exactly if it fills while its class offers another run, and the blocks in the runs of that set are the
  only held ones that may not be freed (`Context.Context.HeldMayFree`).
* `delete_arena` asserts an address that `free_arena` does not look up for a large arena: the process
  stops if and only if it has no address for that index (`MappingCache.FreeArenaExact`,
  `MappingCache.LargeFreedElsewhere`).
* `new_arena` overwrites a stale cache entry; that mapping is lost for good, if and only if the entry is
  filled (`MappingCache.NewArenaLoses`, with a run of six steps in `MappingCache.MappingLost`). No other
  step loses a mapping (`MappingCache.LostForGood`).
* `new_chunk` tests the kind `ARENA_TYPE_CONTEXT` twice, so chunk arenas are never reused: null comes
  back as soon as the context's arena is full and no row is unused (`ArenaTable.NewChunkExact`,
  `ArenaTable.ReuseExact`, `ArenaTable.RoomWasted`).
* `check_chunk_medium` finds the unit itself when it looks for the next one and always answers 0
  (`MediumChunk.Chunk.CheckSize`), and `check_arena` passes on the wrong offset. `shm_realloc` then
  returns a block that is too short as if it had grown, exactly for medium blocks and for small blocks
  outside the first chunk of their arena (`Context.Context.CheckArena`, `SharedMalloc.ShmRealloc`).
* `rbtree_lower` returns some key that is large enough, not always the least (`RedBlackSearch.LowerNotFirst`);
  it returns the least if and only if none fits in the subtree it skips, and it returns null if and only if
  there is none (`RedBlackSearch.LowerIsFirst`, `RedBlackSearch.LowerComplete`).
* `bitmap_ffsp` reads one word behind its limit before it tests for the end. The value is not used; the
  model tests first.

## Model

| member | source | states |
|---|---|---|
| RedBlackTree.RBTree.LeftRotate | src/rbtree.h:59-84 | rotating at any node replaces its subtree by the rotated one, everywhere else parent and child links still say the same tree |
| RedBlackTree.RBTree.RightRotate | src/rbtree.h:86-111 | the mirror image |
| RedBlackTree.RBTree.InsertStep | src/rbtree.h:118-156 | one round: the only flaw is still a red node at the focus, the grandparent is never null, and the focus is higher up |
| RedBlackTree.RBTree.FixInsert | src/rbtree.h:113-158 | from one red-red edge to a red-black tree with a black root, changing only links and colours, in at most as many rounds as the node is deep |
| RedBlackTree.RBTree.Descend | src/rbtree.h:348-362 | the place found lies between keys the comparator puts before the new one and keys it does not |
| RedBlackTree.RBTree.Insert | src/rbtree.h:342-372 | exactly the new node joins the in-order sequence, next to neighbours that allow it under any comparator; red-black rules, links and size hold; keys, and records outside the tree, are untouched; the repair of a tree of n nodes takes at most 2 * log2(n + 1) rounds |
| KeyOrder.InsertKeepsOrder | src/rbtree.h:348-362 | under a total preorder, with duplicates, a sorted sequence stays sorted |
| RedBlackTree.RBTree.DeleteStep | src/rbtree.h:166-218 | one round: the focus is one black short, its sibling is never null, the side is told by the stored link, and a round ends the flaw or goes up |
| RedBlackTree.RBTree.FixDelete | src/rbtree.h:160-223 | from a subtree one black short to a red-black tree with a black root; at most one round more than the subtree is deep |
| RedBlackTree.RBTree.Unlink | src/rbtree.h:385-412 | a node with one child at most is bypassed, through the sentinel if it has none |
| RedBlackTree.RBTree.TakePlace | src/rbtree.h:413-440 | the successor takes the place, colour and links of the deleted node |
| RedBlackTree.RBTree.Delete | src/rbtree.h:374-449 | exactly the given node leaves the in-order sequence; red-black rules, links and size hold; the sentinel is not in the tree; the repair takes at most 2 * log2(n + 1) rounds |
| KeyOrder.RemoveKeepsOrder | src/rbtree.h:374-449 | the rest stays sorted under any comparator it was sorted by |
| RedBlackTree.RBTree.FindLower | src/rbtree.h:321-340 | the loop computes the search of `Lower` in at most 2 * log2(n + 1) rounds |
| RedBlackShape.Logarithmic | src/rbtree.h:113-223 | the colour rules bound the levels of a tree of n nodes by 2 * log2(n + 1) |
| RedBlackSearch.LowerComplete | src/rbtree.h:321-340 | in a sorted tree the search finds something if and only if some key is at least the one sought |
| RedBlackSearch.LowerFits | src/rbtree.h:321-340 | what it finds is at least the key sought |
| RedBlackSearch.LowerIsFirst | src/rbtree.h:321-340 | it is the first such key in order if and only if none fits in the subtree the search skips |
| RedBlackSearch.LowerExact | src/rbtree.h:321-340 | the first fitting key in order is the first one in the subtree the search skips, and the one it returns if none fits there |
| RedBlackSearch.LowerNotFirst | src/rbtree.h:329-331 | a valid tree in which the answer is 10 although 7 fits a search for 6 |
| RedBlackTree.RBTree.Min | src/rbtree.h:240-247 | first of the in-order sequence, null if empty |
| RedBlackTree.RBTree.Max | src/rbtree.h:249-256 | last of the in-order sequence, null if empty |
| RedBlackTree.RBTree.Next | src/rbtree.h:258-278 | successor in the in-order sequence, null at the end |
| RedBlackTree.RBTree.Prev | src/rbtree.h:280-300 | predecessor in the in-order sequence, null at the start |
| KeyOrder.PrevInvertsNext | src/rbtree.h:258-300 | the predecessor of the successor is the node itself |
| RedBlackTree.RBTree.Walk | src/rbtree.h:240-278 | stepping from the minimum visits the in-order sequence once each and ends in null |
| Bitmap.BitmapSet | src/shm_util.h:18-22 | exactly one bit is added |
| Bitmap.BitmapGet | src/shm_util.h:24-28 | membership of one bit |
| Bitmap.BitmapClear | src/shm_util.h:30-34 | exactly one bit is removed |
| Bitmap.BitmapFfu | src/shm_util.h:43-55 | the least clear bit, or the limit if all words are full |
| Bitmap.BitmapFfsp | src/shm_util.h:85-101 | the least set bit from a position on, or the limit if there is none |
| Bitmap.BitmapSfu | src/shm_util.h:110-115 | sets the least clear bit below the limit, or changes nothing; also for a limit inside a word |
| ChunkPool.DifferenceSign | src/shm_chunk.c:21-25 | the wrapped difference is the true one exactly while that fits an int |
| ChunkPool.ChunkOrder | src/shm_chunk.c:21-25 | for fields below 2^31 the comparator is a total preorder |
| ChunkPool.UpdateChunkPool | src/shm_chunk.c:117-130 | one chunk gets a new key; members, names and all other keys stay, and the index is sorted again |
| ChunkPool.GetAvailableChunk | src/shm_chunk.c:52-68 | null if and only if no chunk in the index reaches the size; otherwise one that does |
| ChunkPool.EnterPool | src/shm_chunk.c:31-50 | a new chunk joins the index under its key |
| ChunkPool.DeleteFromPool | src/shm_chunk.c:70-79 | exactly this chunk leaves the index |
| MediumUnits.LiveDisjoint | src/chunk_medium.c:120-161 | live blocks never overlap and stay in the chunk |
| MediumUnits.Conservation | src/chunk_medium.c:151-154 | free and live pages add up to the chunk; all pages are free if and only if nothing is live |
| MediumUnits.EmptyChunk | src/chunk_medium.c:183-230 | coalesced units without a live block are one free unit |
| MediumUnits.UnitsDetermined | src/chunk_medium.c:163-231 | the live blocks determine all units: the order of calls does not matter |
| MediumUnits.ReleaseShape | src/chunk_medium.c:183-230 | after merging both sides: no gap, no overlap, no two free neighbours, exactly one live block fewer, free pages grown by its length |
| MediumChunk.ComparatorsAgree | src/chunk_medium.c:24-29 | the comparator is the order by size and index exactly where the first size is not smaller |
| MediumChunk.PagesForExact | src/chunk_medium.c:125 | the fewest pages that hold the request |
| MediumChunk.Chunk.SetUnit | src/chunk_medium.c:43-50 | both bitmaps stay mirror images, the assertions hold |
| MediumChunk.Chunk.ClearUnit | src/chunk_medium.c:59-66 | both bitmaps stay mirror images, the assertions hold |
| MediumChunk.Chunk.FindNext | src/chunk_medium.c:68-71 | next unit start, or the number of pages |
| MediumChunk.Chunk.FindPrev | src/chunk_medium.c:73-81 | previous unit start through the mirrored bitmap, or the number of pages |
| MediumChunk.InitChunk | src/chunk_medium.c:89-105 | one free unit; all redundant structures agree, and the cached maximum is true |
| MediumChunk.Chunk.CheckMax | src/chunk_medium.c:107-118 | cached maximum and index key change together |
| MediumChunk.Chunk.LastTrue | src/chunk_medium.c:110-113 | in any order, the last node of the tree is a largest free unit exactly if no unit of the tree is larger |
| MediumChunk.Chunk.LastIsLargest | src/chunk_medium.c:110-113 | in the order by size it always is |
| MediumChunk.Chunk.Malloc | src/chunk_medium.c:120-161 | succeeds if and only if the search finds a unit that is large enough; then exactly one block of the pages asked for is added, where none was; a true maximum stays true if and only if the unit taken was smaller or the last one is a largest one now, which for the comparator as written is a test on the units before the call; every redundant structure agrees again |
| MediumChunk.Chunk.WrittenLast | src/chunk_medium.c:150-153 | with the comparator as written, the last unit after an allocation is a largest one exactly if the first one was the only one, or neither its rest nor any other unit was larger than the last one before |
| MediumChunk.Chunk.Free | src/chunk_medium.c:163-231 | the start of a live block removes exactly that block; any other offset changes nothing; true if and only if the last live block went; a true maximum stays true under any comparator |
| MediumChunk.Chunk.ServesExactly | src/chunk_medium.c:128-132 | with the order by size the assertions hold for exactly the requests the cached maximum admits |
| MediumChunk.Chunk.ServesAsWritten | src/chunk_medium.c:128-132 | with the comparator as written they hold exactly if the first unit in tree order happens to fit |
| MediumChunk.Chunk.AllFreed | src/chunk_medium.c:218-230 | when nothing is live the chunk is one free unit of 255 pages from page 1 |
| MediumChunk.Chunk.CheckSize | src/chunk_medium.c:233-253 | the answer is always 0, right exactly where no block starts |
| MediumChunk.Chunk.UserWrite | src/chunk_medium.c:18-22 | whatever a user writes into pages it holds, where tree nodes could be, nothing of the above changes |
| MediumRuns.NotAnOrder | src/chunk_medium.c:24-29 | two different sizes are each greater than the other |
| MediumRuns.AbortingRun | src/chunk_medium.c:128-132 | allocate 1, allocate 1, free the first, allocate 2: the assertion fails with 253 pages free in one unit |
| MediumRuns.StaleMaximumRun | src/chunk_medium.c:107-118 | a run after which the cached maximum is 1 and a unit of 252 pages is free |
| MediumPool.Mediums.FindChunk | src/shm_chunk.c:62-66 | null if and only if no chunk's cached maximum reaches the size; says whether the chunk picked fails its assertions |
| MediumPool.Mediums.InitChunk | src/shm_chunk.c:45-49 | a chunk of one free unit joins under its maximum and the index of its arena; all others stay |
| MediumPool.Mediums.Malloc | src/chunk_medium.c:120-161 | one chunk serves the request, exactly if its search comes to a unit that fits; all others and their index entries stay |
| MediumPool.Mediums.Free | src/shm_chunk.c:81-98 | frees in one chunk; the chunk leaves the index if and only if its last block went |
| RunHeap.MergeHolds | src/shm_tree.c:13-46 | two separate heaps in memory become one of exactly their nodes, with right child and parent links, in a recursion no deeper than both right spines; nodes outside are untouched |
| RunHeap.MergeOrdered | src/shm_tree.c:20-28 | parents stay before children |
| RunHeap.MergeLeftist | src/shm_tree.c:30-44 | stored ranks stay right and never larger on the right |
| RunHeap.SpineBound | src/shm_tree.c:26 | the right spine of a leftist heap of n nodes is at most log2(n + 1) long |
| RunHeap.RemoveNodes | src/shm_tree.h:49-70 | any node can be removed: exactly that one goes, order is kept |
| RunHeap.RemoveNotLeftist | src/shm_tree.h:62-68 | ranks above the removed node can be wrong afterwards |
| RunPool.Pool.MergeAt | src/shm_tree.c:13-46 | the recursive in-place merge computes the merge on memory wherever its links lead |
| RunPool.Pool.Push | src/shm_tree.h:28-34 | a node without links joins, on leftist and other heaps alike |
| RunPool.Pool.PushAsIs | src/shm_tree.h:28-34 | the call for any node: the pool is a heap of the old members and it if and only if the node has no links |
| RunPool.Pool.Pop | src/shm_tree.h:36-47 | exactly the root leaves; it has no links left if and only if it was alone or the pool clears them |
| RunPool.Pool.Remove | src/shm_tree.h:49-70 | exactly the given member leaves, root or not |
| RunPool.Pool.SizeCounts | src/shm_tree.h:28-47 | `size` counts the members, and the root is the least position |
| RunRepush.PushExact | src/shm_tree.h:28-34 | putting back a node, wherever its links lead, gives a heap of exactly the old nodes and it if and only if it has no links |
| RunRepush.TwoRuns | src/shm_tree.h:36-47 | take out, put back, take out: a run is its own child |
| RunRepush.EmptiedPool | src/shm_tree.h:28-47 | take out both runs of a pool, put the first back, take it out: the full second run is the pool's root |
| SmallRun.FindRunConfig | src/chunk_small.c:58-73 | the smallest class whose slots are large enough |
| SmallRun.SlotInPage | src/chunk_small.c:147-154 | slots lie behind the header of their page and never overlap |
| SmallRun.InitRun | src/chunk_small.c:134-154 | the page has as many slots as fit behind its header and not one more; the loop links every place of the page that has room for a slot, once each, and ends the list |
| SmallRun.FilledPage | src/chunk_small.c:143-154 | in a whole run every place that has room for a slot is either free or handed out, and it is full exactly if all are handed out |
| SmallRun.TakeSlotHolds | src/chunk_small.c:86-96 | on a run that is not full the assertions hold and the slot given was not handed out |
| SmallRun.GiveSlotHolds | src/chunk_small.c:98-105 | exactly this slot is free again |
| SmallRun.UsedCounts | src/chunk_small.c:107-115 | `used` counts the slots handed out; full and empty mean what they say |
| SmallRun.FreeListExact | src/chunk_small.c:86-105 | following the list for `total - used` steps passes exactly the slots not handed out, once each, and ends |
| SmallRun.WriteHolds | src/chunk_small.c:92-93 | users may write anything into slots they hold |
| SmallState.TakeHolds | src/chunk_small.c:166-174 | one block more; pools are exactly the runs that are not full; the one-spare rule is kept |
| SmallState.AddHolds | src/chunk_small.c:125-164 | a run on an unused page disturbs nothing; no second spare run if the class offered none |
| SmallState.FreedHolds | src/chunk_small.c:185-217 | exactly one block ends, pools and pages still agree, and a class still has at most one empty run; the run of the block goes if and only if that was its only live slot and another run of its class has a free one, so the class offers a run afterwards; all other runs are as they were |
| SmallState.RunCapacity | src/chunk_small.c:125-154 | in every state that holds, every run has as many slots as fit in its page, each either live or free |
| SmallState.EmptyChunkExact | src/chunk_small.c:213 | only the header page is used if and only if the chunk has no run |
| SmallState.BlocksApart | src/chunk_small.c:166-174 | live small blocks never overlap, over all runs and chunks |
| SmallHeap.SmallChunk.constructor | src/chunk_small.c:117-123 | only the header page is used |
| SmallHeap.SmallChunk.TakePage | src/chunk_small.c:129-132 | while the count is below 256 there is a free page, the first one is taken, and the assertion on its index holds |
| SmallHeap.SmallChunk.GivePage | src/chunk_small.c:176-183 | one page is free again, the count agrees |
| SmallHeap.Allocator.InitChunk | src/shm_chunk.c:41-44 | a chunk with free pages joins the index under key 1 and the index of its arena |
| SmallHeap.Allocator.NewChunkRun | src/chunk_small.c:125-164 | a run on the first free page, with as many slots as fit, in its pool; the chunk's key is 0 exactly if no page is left |
| SmallHeap.Allocator.MallocChunkRun | src/chunk_small.c:166-174 | the slot is handed out, and if the run is full now it is this run that leaves the pool; it is one of those that keep links exactly if it was not alone there and the pool does not clear them |
| SmallHeap.Allocator.LinkedExact | src/chunk_small.c:193-201 | which full runs still have links, and that putting a full run back gives a heap of its class's runs and it exactly if it has none |
| SmallHeap.Allocator.PoolRoot | src/shm_context.c:218-228 | the root of a pool is a run with a free slot; null if and only if the class has none |
| SmallHeap.Allocator.FindChunk | src/shm_chunk.c:58-61 | null if and only if every chunk is full of runs |
| SmallHeap.Allocator.FindRun | src/chunk_small.c:75-84 | the run of the page if that page is used |
| SmallHeap.Allocator.DropIfSpare | src/chunk_small.c:203-214 | an empty run goes if and only if some other run of its class has a free slot |
| SmallHeap.Allocator.FreeChunkSmall | src/chunk_small.c:185-217 | an unused page changes nothing; otherwise the slot goes back, its run goes if and only if it had no other live slot and another run of the class offers one, and the chunk is reported exactly if only its header is left |
| SmallHeap.Allocator.FreeSmall | src/shm_chunk.c:81-98 | the same, and the chunk is dropped if and only if no run remains on it |
| SmallHeap.Allocator.CheckSmall | src/chunk_small.c:219-227 | slot size of the run the offset is in, 0 in an unused page, whatever the header holds in the header page |
| SmallHeap.Allocator.UserWrite | src/chunk_small.c:92-93 | writes into held blocks change no bookkeeping: one word, and all else as before |
| MappingCache.ResolveExact | src/shm_malloc.c:126-143 | a valid index resolves to an address where the process has mapped the segment the table names now, any other to null; no assertion fails; resolving again changes nothing |
| MappingCache.ResolveMaps | src/shm_malloc.c:126-143 | a mapping is given up if and only if its id is not the one in the table, and then the right segment is mapped if there is one; no other entry and no other mapping of any process changes, none becomes lost, and the kernel drops exactly the segments nobody maps any more |
| MappingCache.SameAddressAgain | src/shm_malloc.c:131-139 | the kernel may give back the address the step has just given up |
| MappingCache.NewArenaInv | src/shm_context.c:88-133 | a new arena keeps the protocol invariant: ids, entries and mappings agree, and every segment that lives is mapped by somebody |
| MappingCache.NewArenaKeeps | src/shm_context.c:88-99 | the first free row is used, and there is none if and only if all rows are taken; the row names a segment that is new, mapped by this process under that entry, and nothing else changes |
| MappingCache.DeleteArenaKeeps | src/shm_context.c:135-144 | goes through if and only if the process has an address for the index; then that address is unmapped and the entry cleared, every other mapping of every process is as before, none becomes lost, and the segment lives on if and only if some process maps it |
| MappingCache.FreeArenaExact | src/shm_context.c:265-300 | stops the process if and only if the block is large and it has no address for its index; otherwise a large arena, or a chunk arena with its last chunk, is deleted and unmapped, and else nothing changes but what looking the arena up does |
| MappingCache.JoinKeeps | src/shm_malloc.c:29-37 | a new process has every arena of the table mapped, and no mapping of any process becomes lost |
| MappingCache.RunKeeps | src/shm_malloc.c:126-143 | the invariant holds after every run of steps of any processes |
| MappingCache.EveryRun | src/shm_malloc.c:126-143 | after every run from the start, comparing ids suffices: an id a process remembers cannot have been given away |
| MappingCache.LargeFreedElsewhere | src/shm_context.c:293-295 | a run in which one process cannot free what another has allocated, and can after asking for its address |
| MappingCache.NewArenaLoses | src/shm_context.c:122-130 | a mapping is lost if and only if the overwritten entry was still filled |
| MappingCache.MappingLost | src/shm_context.c:122-130 | both processes join, 1 makes an arena, 2 uses it, 1 gives it up, 2 makes one in its place: the old mapping of 2 is lost |
| MappingCache.LostForGood | src/shm_malloc_inc.h:15-25 | no step ever unmaps a lost mapping, and a step loses one if and only if it makes an arena over a filled entry of the same process |
| MappingCache.Machine.GetOrUpdateArenaAddr | src/shm_malloc.c:126-143 | the in-place step is the one the above is about |
| MappingCache.Machine.CreateArena | src/shm_context.c:88-133 | the loop over the table finds the first free row |
| MappingCache.Machine.DestroyArena | src/shm_context.c:135-144 | the assertion fails exactly without an address; otherwise the address is unmapped, and nothing else changes |
| MappingCache.Machine.ShmInit | src/shm_malloc.c:29-37 | the loop maps what the table names |
| ArenaTable.NewChunkHolds | src/shm_context.c:170-192 | a new chunk is at a position no chunk has; exactly it is added; `used` counts the entries in use |
| ArenaTable.NewChunkExact | src/shm_context.c:146-192 | null if and only if entries 1 to 7 of the context's arena are in use and no row is unused or no memory is to be had; otherwise the first free entry of the context's arena, and if it has none entry 0 of the first unused row, and what the table becomes |
| ArenaTable.WithoutChunkHolds | src/shm_context.c:162-216 | exactly one chunk goes, and its row is cleared if and only if it is not the context's and no other entry of it is in use |
| ArenaTable.NewLargeHolds | src/shm_context.c:255-260 | a large arena adds no chunk |
| ArenaTable.ReuseExact | src/shm_context.c:175-183 | the doubled test does no harm exactly if the context's arena has room or no chunk arena has |
| ArenaTable.RoomWasted | src/shm_context.c:175-183 | a table with room for 889 chunks that gives none |
| ArenaTable.Arenas.NewArenaChunk | src/shm_context.c:146-160 | the first free entry, or null if and only if the row is full |
| ArenaTable.Arenas.NewArena | src/shm_context.c:88-133 | the first free row, if the kernel gives memory |
| ArenaTable.Arenas.NewChunk | src/shm_context.c:170-192 | the loop over the table; null if and only if entries 1 to 7 of the context's arena are in use and no row is unused or no memory is to be had |
| ArenaTable.Arenas.CheckDeleteChunk | src/shm_context.c:210-216 | the in-place form of the removal |
| WholeHeap.LiveApart | src/shm_context.c:230-263 | any two blocks the users hold, small, medium or large, have no byte in common |
| WholeFree.SmallBlockThere | src/shm_context.c:279-283 | what is held at an offset of a chunk of runs is the slot the offset names |
| WholeFree.MediumBlockThere | src/shm_context.c:279-283 | what is held at an offset of a chunk of pages is the unit that starts there |
| WholeFree.OtherUnits | src/shm_chunk.c:81-98 | a chunk of pages has no live unit but one if and only if no other block is held in it |
| WholeFree.ShrinksTable | src/shm_context.c:265-300 | what a free leaves of chunks and runs is one of the two steps of the table the mappings know |
| Context.Context.NewSmallChunk | src/shm_context.c:170-208 | a chunk for runs, or null with nothing changed; no block changes hands |
| Context.Context.MallocSmall | src/shm_context.c:234-247 | null if and only if no run, no page and no arena is left; otherwise one new block as long as the slots of its class, in a run of the class that had a free slot or, if there was none, in a new one; which run keeps links |
| Context.Context.MallocMedium | src/shm_context.c:248-254 | null if and only if no chunk's maximum and no arena can serve; the block has the fewest pages that hold the request; with true maxima in the order by size no assertion fails, and with the comparator as written one does if and only if the chunk picked refuses |
| Context.Context.MallocLarge | src/shm_context.c:255-261 | null if and only if there is no memory or no unused row; otherwise one new block of the fewest chunks that hold the request |
| Context.Context.MallocArena | src/shm_context.c:230-263 | null if and only if nothing is left for a request of this size, in terms of runs, cached maxima, entries of the context's arena and unused rows; otherwise the block was not held, has the least length that fits (smallest class, fewest pages, fewest chunks), and all others are held as before; a run is added exactly if its class offered none; failure changes nothing; exactly when an assertion fails; which full run has links now; exactly what happens to the table; all invariants of all layers are kept |
| Context.Context.HeldMayFree | src/shm_context.c:265-300 | a block that is held may be freed exactly if it is not in a run that keeps links, and always if the pools clear them |
| Context.Context.LargeMayFree | src/shm_context.c:293-295 | any offset in a large arena may be freed |
| Context.Context.FreeRunBlock | src/shm_context.c:279-289 | a chunk of runs stays in the table if and only if a run is left on it; the run of the block goes exactly if it was superfluous; the row is cleared if and only if it is not the context's and had no other chunk |
| Context.Context.FreePageBlock | src/shm_context.c:279-289 | a chunk of pages stays in the table if and only if another block is held in it; the runs are as they were |
| Context.Context.FreeArena | src/shm_context.c:265-300 | the block at the position, if one is held there, is not held any more and all others are; otherwise nothing changes; in a large arena any offset ends the block and the arena; a chunk goes if and only if no other block, in a chunk of pages, or no run, in a chunk of runs, is left in it, and the row with its last chunk; the runs that keep links are the same |
| Context.Context.UserWrite | src/chunk_medium.c:18-22 | a user may write any bytes of any block it holds, where links and tree nodes could be, and no bookkeeping of any layer changes |
| Context.Context.CheckArena | src/shm_context.c:302-336 | for a block that is held: its length in large arenas and in first chunks of runs, 0 everywhere else; 0 where a free would find nothing |
| SharedMalloc.InitSharedContext | src/shm_context.c:14-31 | from nothing, a new heap of which every invariant of every layer holds, with no block held, no run that keeps links and no arena but the context's |
| SharedMalloc.ShmMalloc | src/shm_malloc.c:42-51 | null if and only if the size is 0 or nothing is left for it; otherwise one new block of the least length that fits; exactly when an assertion fails, which run is taken or added, which run keeps links, what the table is |
| SharedMalloc.ShmFree | src/shm_malloc.c:53-63 | the block the position names is not held any more, and runs, chunks and arenas go exactly with their last block as said of `FreeArena`; null changes nothing; the same runs keep links |
| SharedMalloc.ShmRealloc | src/shm_malloc.c:65-86 | a block whose length is known and too short ends and a longer one of the least length that fits begins, all others as before, by way of a heap that has both; failure keeps it; in every other case nothing changes and the position comes back |
| HeapMappings.HeldReached | src/shm_malloc.c:126-143 | any process gets an address for any block that is held, in the segment the table names, and can then free it |
| HeapMappings.NewArenaJoint | src/shm_context.c:88-133 | the heap's table and the mappings take the same row |
| KernelSteps.GrowJoint | src/shm_context.c:88-133 | whatever a request does to the table, the mappings follow and their invariant is kept |
| KernelSteps.LookAllReaches | src/shm_malloc.c:126-143 | after a call the entry of every arena its process has looked at has the id the table has |
| KernelSteps.ShrinkJoint | src/shm_context.c:265-300 | whatever a free does to the table, the mappings follow, and the process is stopped if and only if the arena is a large one for which it has no address; where the row becomes empty this process unmaps the arena, and no mapping becomes lost |
| KernelSteps.ResizeJoint | src/shm_malloc.c:73-83 | the mappings follow both halves of a move; since both addresses are asked for in between, its free never stops the process |
| SharedRuns.Allocate | src/shm_malloc.c:42-51 | the step of `shm_malloc`: null if and only if nothing is left, otherwise the record of held blocks has exactly the new one more, and the mappings have the new arena if there is one |
| SharedRuns.Release | src/shm_malloc.c:53-63 | the step of `shm_free`: stops if and only if the block is large and the process has no address for it, with nothing changed; otherwise exactly this block is not held any more |
| SharedRuns.Resize | src/shm_malloc.c:65-86 | the step of `shm_realloc`: the block stays, with nothing changed, if and only if it is long enough or its length is not known; otherwise it moves, or there is nothing left for it |
| SharedRuns.Make | src/shm_malloc.c:18-124 | any call is the step it should be, on the heap, the mappings and the record of held blocks, or is passed over; it stops its process exactly if a free has no address, or the chunk picked refuses the request |
| CallSteps.JointEverywhere | src/shm_malloc.c:126-143 | where heap and mappings agree, every process that takes part reaches every block that is held |
| CallSteps.TraceLedger | src/shm_malloc.c:18-86 | after any run the blocks that are held, with the bytes asked for, and the processes that take part are those its calls and answers say |
| CallSteps.ClearingRuns | src/shm_tree.h:36-47 | with pools that clear links, a free is passed over in a run if and only if the block is not held or the process takes no part |
| SharedRuns.Run | src/shm_malloc.c:18-143 | any calls of any processes from nothing: every call is its step, every state in between is sound, the record at the end is the replay of calls and answers; shorter than its calls only if one stopped its process, and what stops it: with the order by size only a free without an address, as written also a request the chunk picked refuses |
| KernelSteps.SomeKernel | src/shm_malloc.c:131-139 | there is a kernel that keeps the promises the runs ask for |

## Left out

- RunPool.Pool.Push: asks for a node without links, where the code asks for nothing; `RunPool.Pool.PushAsIs` is the same call for any node, with the exact condition.
- SmallHeap.Allocator.FreeChunkSmall: asks that an offset in a used page is that of a live slot, which the code does not check, and that its run is not in `linked`; `SmallHeap.Allocator.LinkedExact` shows that this condition is the exact one.
- SmallHeap.Allocator.FreeSmall: the same two conditions.
- Context.Context.FreeArena: the same two conditions for small blocks, and that the position is not in the chunk of the context itself, whose entry in the table is not a position.
- Context.Context.CheckArena: not for positions in the chunk of the context itself, for the same reason.
- SharedMalloc.ShmFree: the same.
- SharedMalloc.ShmRealloc: the same, but that a run keeps links only matters where the block moves; the bytes that are copied are not part of this model.
- SharedRuns.Release: asks for a block that is held and not in a run that keeps links; `SharedRuns.Make` passes over every other free.
- SharedRuns.Resize: the same, also where nothing would move.
- SharedRuns.Make: with the comparator as written its steps do not say how the cached maxima change; `MediumChunk.Chunk.Malloc` and `MediumChunk.Chunk.Free` do.
- WholeHeap.LiveApart: positions are unbounded integers; a large block longer than 4 GB would not fit the 32-bit offset of a position.
- MappingCache.ResolveExact: takes every `shmat` as successful, and processes as never leaving.
- SharedRuns.Run: passes over a free of a block that is not held or lies in a run that keeps links, which the code would carry out; the arenas a call looks at come before the arena it makes.
- System V calls, keys, file locks, the mutex and its setup: the kernel appears as described above, and steps as atomic.
- Process exit and the reference count of the context: how long segments live then depends on the operating system.
- Byte layout, struct casts, padding and the static size checks: nodes are records under names.
- The first word of a slot stands for the whole slot; page contents otherwise are arbitrary.
- Logging, user data, `copystr`, `rbtree_find` and `bitmap_ffs`, which the allocator does not need.
