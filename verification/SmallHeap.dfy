/** Small blocks, src/chunk_small.c: chunks with a bitmap of used pages, runs on those pages, one pool
    of runs per size class, and the index of chunks with a free page. */
module SmallHeap {
  import opened Basics
  import opened RedBlackTree
  import opened Bitmap
  import opened ChunkPool
  import opened RunHeap
  import opened RunRepush
  import opened RunPool
  import opened SmallRun
  import opened SmallState

  /** The header of a chunk of small runs: chunk_small_detial. */
  class SmallChunk {
    const bitmap: array<bv64>
    var used: int

    ghost function Pages(): set<nat>
      reads bitmap
    {
      Bits(bitmap[..])
    }

    ghost predicate Valid()
      reads this, bitmap
    {
      bitmap.Length == 4 && used == |Pages()|
    }

    /** init_chunk_small, on a cleared header. */
    constructor ()
      ensures Valid() && Pages() == {0} && fresh(bitmap)
    {
      bitmap := new bv64[4](_ => 0);
      used := 1;
      new;
      NoBits(bitmap[..]);
      BitmapSet(bitmap, 0);
      assert |Pages()| == 1;
    }

    /** bitmap_sfu and the count: the first page that is not used, 256 if there is none. */
    method TakePage() returns (i: nat)
      requires Valid() && used < PAGES
      modifies this`used, bitmap
      ensures Valid() && i < PAGES && i !in old(Pages()) && Pages() == old(Pages()) + {i}
      ensures forall j: nat :: j < i ==> j in old(Pages())
    {
      ghost var before := Pages();
      used := used + 1;
      i := BitmapSfu(bitmap, PAGES);
      if i >= PAGES {
        AllPages(before);
        assert false;
      }
    }

    /** free_chunk_run */
    method GivePage(i: nat)
      requires Valid() && i < PAGES && i in Pages()
      modifies this`used, bitmap
      ensures Valid() && Pages() == old(Pages()) - {i}
    {
      used := used - 1;
      BitmapClear(bitmap, i);
    }
  }

  /** A set with all pages has 256 members. */
  lemma AllPages(s: set<nat>)
    requires forall i: nat :: i < PAGES ==> i in s
    ensures |s| >= PAGES
  {
    FirstCount(PAGES);
    SubsetCount(FirstNumbers(PAGES), s);
  }

  lemma AtMostPages(s: set<nat>)
    requires forall i :: i in s ==> i < PAGES
    ensures |s| <= PAGES
  {
    FirstCount(PAGES);
    AllIn(PAGES);
    SubsetCount(s, FirstNumbers(PAGES));
  }

  lemma AllIn(n: nat)
    ensures forall i: nat :: i < n ==> i in FirstNumbers(n)
  {
    if n > 0 { AllIn(n - 1); }
  }

  lemma OnlyHeader(s: set<nat>)
    requires 0 in s
    ensures |s| == 1 <==> s == {0}
  {
    if |s| == 1 { assert |s - {0}| == 0; }
  }

  ghost function FirstNumbers(n: nat): set<nat> {
    if n == 0 then {} else FirstNumbers(n - 1) + {n - 1}
  }

  lemma {:induction false} FirstCount(n: nat)
    ensures |FirstNumbers(n)| == n && forall i :: i in FirstNumbers(n) ==> i < n
  {
    if n > 0 { FirstCount(n - 1); }
  }

  lemma {:induction false} SubsetCount(a: set<nat>, b: set<nat>)
    requires a <= b
    ensures |a| <= |b| && (|a| == |b| ==> a == b)
  {
    if a != {} {
      var x :| x in a;
      SubsetCount(a - {x}, b - {x});
    }
  }

  // ----- what the objects say, and the values they stand for -----

  /** The pools hold the runs that are not full. Of the full ones, `linked` are those whose nodes still
      have the links of their time in a pool. */
  ghost predicate PoolsMatch(pools: seq<Pool>, members: seq<set<int>>, full: map<int, int>, linked: set<int>)
    reads pools
  {
    && |pools| == |members| == RUN_CONFIG_SIZE
    && (forall j, k :: 0 <= j < k < |pools| ==> pools[j] != pools[k])
    && (forall k :: 0 <= k < |pools| ==> pools[k].Valid() && pools[k].Members() == members[k])
    && linked <= full.Keys && forall p :: p in full ==> FullMatch(pools, members, full[p], p, linked)
  }

  ghost predicate FullMatch(pools: seq<Pool>, members: seq<set<int>>, k: int, p: int, linked: set<int>)
    requires |pools| == |members|
    reads pools
  {
    && 0 <= k < |pools| && p !in members[k] && p in pools[k].mem && pools[k].mem[p].root == SHM_NULL
    && (Unlinked(pools, k, p) <==> p !in linked)
  }

  ghost predicate ChunksMatch(chunks: map<int, SmallChunk>, pages: map<int, set<nat>>)
    reads chunks.Values, set c | c in chunks :: chunks[c].bitmap
  {
    && chunks.Keys == pages.Keys
    && (forall c, d :: c in chunks && d in chunks && c != d ==>
      chunks[c] != chunks[d] && chunks[c].bitmap != chunks[d].bitmap)
    && (forall c :: c in chunks ==> chunks[c].Valid() && chunks[c].Pages() == pages[c])
  }

  lemma SameChunks(chunks: map<int, SmallChunk>, pages: map<int, set<nat>>)
    requires ChunksMatch(chunks, pages)
    ensures chunks.Keys == pages.Keys
  {
  }

  lemma ChunkAdded(chunks: map<int, SmallChunk>, pages: map<int, set<nat>>, c: int, chunk: SmallChunk)
    requires ChunksMatch(chunks, pages) && chunk.Valid() && chunk.Pages() == {0}
    requires forall d :: d in chunks ==> chunks[d] != chunk && chunks[d].bitmap != chunk.bitmap
    ensures ChunksMatch(chunks[c := chunk], pages[c := {0}])
  {
  }

  lemma ChunkRemoved(chunks: map<int, SmallChunk>, pages: map<int, set<nat>>, c: int)
    requires ChunksMatch(chunks, pages)
    ensures ChunksMatch(chunks - {c}, pages - {c})
  {
  }

  /** The index holds exactly the chunks, with key 1 if a page is free and 0 if not. */
  ghost predicate IndexMatch(index: RBTree<ChunkKey>, pages: map<int, set<nat>>)
    reads index
  {
    && IsPool(index)
    && (forall c :: c in index.Contents() <==> c in pages)
    && (forall c :: c in pages ==> c in index.nodes && index.nodes[c].v.maxsize == if |pages[c]| == PAGES then 0 else 1)
    && (forall c :: c in pages ==> c in index.nodes && KeyOf(index.nodes[c].v, c))
  }

  /** The node of run `p` has no links. */
  ghost predicate Unlinked(pools: seq<Pool>, k: int, p: int)
    reads pools
  {
    0 <= k < |pools| && p in pools[k].mem && Detached(pools[k].mem[p])
  }

  ghost function PartsOf(chunks: map<int, SmallChunk>): set<object> {
    chunks.Values + set c | c in chunks :: chunks[c].bitmap
  }

  class Allocator {
    const pools: seq<Pool>
    const index: RBTree<ChunkKey>
    /** Whether the pools clear the links of a run they give up. In the code they do not: false. */
    const clears: bool
    var chunks: map<int, SmallChunk>
    var runs: map<int, Run>
    ghost var state: Small
    /** The full runs that still have links. */
    ghost var linked: set<int>

    /** No other object is this one. */
    ghost predicate Apart()
      reads this
    {
      && index as object != this && |pools| == RUN_CONFIG_SIZE
      && (forall k :: 0 <= k < |pools| ==> pools[k] as object != this && pools[k].clears == clears)
      && (forall c :: c in chunks ==> chunks[c] as object != this && chunks[c].bitmap as object != this)
    }

    /** Everything the allocator may change. */
    ghost function Objects(): set<object>
      reads this
    {
      {this, index} + (set p | p in pools) + chunks.Values + (set c | c in chunks :: chunks[c].bitmap)
    }

    ghost predicate Valid()
      reads this, Objects()
    {
      && Apart()
      && SmallHolds(state) && state.runs == runs
      && PoolsMatch(pools, state.members, FullRuns(runs), linked) && (clears ==> linked == {})
      && ChunksMatch(chunks, state.pages) && IndexMatch(index, state.pages)
    }

    /** `linked` are exactly the full runs whose nodes still have links, and putting the node of a
        full run back, if that ends, gives a heap of its class's runs and it exactly if it is not one
        of them. */
    lemma LinkedExact(p: int, fuel: nat)
      requires Valid() && p in runs && runs[p].used == runs[p].total
      ensures var k := runs[p].confIndex; 0 <= k < |pools| && (p in linked <==> !Unlinked(pools, k, p))
      ensures var pool := pools[runs[p].confIndex];
        MergeRaw(pool.mem, pool.root, p, fuel).Merged? ==>
          var h := MergeRaw(pool.mem, pool.root, p, fuel);
          IsHeapOf(h.m, h.r, pool.Members() + {p}) <==> p !in linked
    {
      hide SmallHolds, ChunksMatch, IndexMatch, MergeRaw, IsHeapOf;
      InFull(runs, p);
      var k := runs[p].confIndex;
      assert FullMatch(pools, state.members, k, p, linked);
      RunPositive(state, p);
      var pool := pools[k];
      if MergeRaw(pool.mem, pool.root, p, fuel).Merged? { PushExact(pool.mem, pool.heap, p, fuel); }
    }

    lemma FullKnown(p: int)
      requires Valid()
      ensures p in linked ==> p in runs && runs[p].used == runs[p].total
      ensures p in runs && runs[p].used == runs[p].total ==>
        && 0 <= runs[p].confIndex < |pools| && p in pools[runs[p].confIndex].mem
        && (p in linked <==> !Detached(pools[runs[p].confIndex].mem[p]))
    {
      hide SmallHolds, ChunksMatch, IndexMatch, Detached;
      if p in runs {
        InFull(runs, p);
        if runs[p].used == runs[p].total { assert FullMatch(pools, state.members, runs[p].confIndex, p, linked); }
      }
    }

    /** Whether a run is full and its node has links: what a caller could look at before a free. */
    method HasLinks(p: int) returns (b: bool)
      requires Valid()
      ensures b <==> p in linked
    {
      hide *;
      FullKnown(p);
      b := p in runs && runs[p].used == runs[p].total && !Detached(pools[runs[p].confIndex].mem[p]);
    }

    lemma LinkedRuns()
      requires Valid()
      ensures forall p :: p in linked ==> p in runs
    {
    }

    lemma Inside()
      requires Valid()
      ensures SmallHolds(state) && state.runs == runs
    {
    }

    lemma ObjectsAre()
      ensures Objects() == PartsOf(chunks) + {this, index} + set p | p in pools
    {
    }

    lemma AllObjects()
      ensures this in Objects() && index in Objects() && (forall p :: p in pools ==> p in Objects())
      ensures forall c :: c in chunks ==> chunks[c] in Objects() && chunks[c].bitmap in Objects()
    {
      forall c | c in chunks ensures chunks[c] in Objects() { assert chunks[c] in chunks.Values; }
    }

    /** Nothing yet, as in a cleared context. */
    constructor (pools: seq<Pool>, index: RBTree<ChunkKey>, clears: bool)
      requires PoolsMatch(pools, seq(RUN_CONFIG_SIZE, k => {}), map[], {})
      requires forall k :: 0 <= k < |pools| ==> pools[k].clears == clears
      requires IsPool(index) && index.Contents() == []
      ensures Valid() && this.pools == pools && this.index == index && this.clears == clears
      ensures OneSpare(state) && state.runs == map[] && state.pages == map[] && linked == {}
      ensures Objects() == {this, index} + set p | p in pools
    {
      this.pools, this.index, this.clears := pools, index, clears;
      chunks, runs, linked := map[], map[], {};
      state := Small(map[], map[], map[], seq(RUN_CONFIG_SIZE, k => {}));
      new;
      assert FullRuns(runs) == map[];
    }

    /** init_chunk of a small chunk at `c`: header, then into the index. */
    method InitChunk(c: int, indexKey: uint31)
      requires Valid() && c > 0 && c % CHUNK_SIZE == 0 && c !in chunks && indexKey == c / ARENA_SPAN
      modifies this`chunks, this`state, index
      ensures Valid() && state == old(state).(pages := old(state).pages[c := {0}])
      ensures c in chunks && chunks == old(chunks)[c := chunks[c]] && fresh(Objects() - old(Objects()))
    {
      hide SmallHolds, PoolsMatch, IndexMatch, ChunksMatch, SmallChunk.Valid, SmallChunk.Pages;
      SameChunks(chunks, state.pages);
      NewChunkHolds(state, c);
      var chunk := new SmallChunk();
      ChunkAdded(chunks, state.pages, c, chunk);
      chunks := chunks[c := chunk];
      AddChunk(c, indexKey, state.pages);
      state := state.(pages := state.pages[c := {0}]);
    }

    method AddChunk(c: int, indexKey: uint31, ghost pages: map<int, set<nat>>)
      requires IndexMatch(index, pages) && c !in pages && c > 0 && indexKey == c / ARENA_SPAN
      modifies index
      ensures IndexMatch(index, pages[c := {0}])
    {
      hide IsPool;
      EnterPool(index, c, ChunkKey(indexKey, 1));
    }

    /** malloc_chunk_run. If the run is full now it leaves its pool; it then still has links exactly if
        it was not alone there and the pool does not clear them. */
    method MallocChunkRun(p: int) returns (r: int)
      requires Valid() && p in runs && runs[p].used < runs[p].total && 0 <= runs[p].confIndex < |pools|
      requires pools[runs[p].confIndex].root == p
      modifies this`runs, this`state, this`linked, pools[runs[p].confIndex]
      ensures Valid() && r == p + old(runs[p].free) && CanTake(old(state), p) && state == Take(old(state), p)
      ensures Objects() == old(Objects())
      ensures linked == if KeepsLinks(old(state), p, clears) then old(linked) + {p} else old(linked)
    {
      hide SmallHolds, PoolsMatch, ChunksMatch, IndexMatch, Pool.Valid, FullRuns, Unlinked;
      ghost var s := state;
      var k := runs[p].confIndex;
      TakeHolds(s, p);
      TakeFull(s, p);
      NotFull(runs, p);
      var run := runs[p];
      r := p + run.free;
      runs := runs[p := runs[p].(free := run.words[run.free])];
      runs := runs[p := runs[p].(used := runs[p].used + 1)];
      state := Take(s, p);
      assert runs == Take(s, p).runs;
      if runs[p].used == runs[p].total {
        PopRun(k, p, s.members, FullRuns(s.runs), linked);
        linked := if clears || |s.members[k]| == 1 then linked else linked + {p};
      }
    }

    lemma NotFull(runs: map<int, Run>, p: int)
      requires p in runs && runs[p].used < runs[p].total
      ensures p !in FullRuns(runs)
    {
    }

    /** new_chunk_run, in a chunk with a free page. */
    method NewChunkRun(c: int, confIndex: int) returns (p: int, i: nat, ghost l: seq<int>)
      requires Valid() && c in chunks && c in state.pages && 1 <= confIndex < RUN_CONFIG_SIZE
      requires |state.pages[c]| < PAGES
      modifies this`runs, this`state, pools[confIndex], index, chunks[c], chunks[c].bitmap
      ensures Valid() && p in runs && p == PagePos(c, i) && 0 < i < PAGES && i !in old(state.pages[c])
      ensures forall j: nat :: j < i ==> j in old(state.pages[c])
      ensures runs[p].confIndex == confIndex && state == Add(old(state), c, i, runs[p], l)
      ensures RunHolds(runs[p], l) && runs[p].used == 0 && runs[p].total >= 2
      ensures runs[p].elemsize == ELEM_SIZES[confIndex] && Filled(runs[p])
    {
      ghost var s := state;
      hide SmallHolds, PoolsMatch, ChunksMatch, IndexMatch, IsPool, RunHolds, Add, Block, OneSpare, FullRuns, Filled;
      ChunkFacts(s, c);
      var run;
      run, l := InitRun(confIndex);
      PagesFree(s, c);
      NewPages(s, c);
      i := Place(c, confIndex, s.pages, s.members, FullRuns(s.runs));
      p := PagePos(c, i);
      AddHolds(s, c, i, run, l);
      AddFields(s, c, i, run, l);
      AddFull(s.runs, p, run);
      runs := runs[p := run];
      state := Add(s, c, i, run, l);
    }

    lemma NewPages(s: Small, c: int)
      requires SmallHolds(s) && c in s.pages
      ensures forall i: nat :: 0 < i < PAGES && i !in s.pages[c] ==> PagePos(c, i) !in FullRuns(s.runs)
    {
      forall i: nat | 0 < i < PAGES && i !in s.pages[c] ensures PagePos(c, i) !in FullRuns(s.runs) {
        PageFree(s, c, i);
      }
    }

    /** What new_chunk_run does to the chunk, the index and the pool. */
    method Place(c: int, k: int, ghost pages: map<int, set<nat>>, ghost members: seq<set<int>>, ghost full: map<int,
        int>) returns (i: nat)
      requires ChunksMatch(chunks, pages) && IndexMatch(index, pages) && PoolsMatch(pools, members, full, linked)
      requires Apart()
      requires c > 0 && c in chunks && c in pages && |pages[c]| < PAGES && 0 in pages[c] && 0 <= k < RUN_CONFIG_SIZE
      requires forall i: nat ::
        0 < i < PAGES && i !in pages[c] ==> PagePos(c, i) !in members[k] && PagePos(c, i) !in full
      modifies pools[k], index, chunks[c], chunks[c].bitmap
      ensures 0 < i < PAGES && i !in pages[c] && forall j: nat :: j < i ==> j in pages[c]
      ensures ChunksMatch(chunks, pages[c := pages[c] + {i}]) && IndexMatch(index, pages[c := pages[c] + {i}])
      ensures PoolsMatch(pools, members[k := members[k] + {PagePos(c, i)}], full, linked)
    {
      hide IsPool, ChunksMatch, IndexMatch;
      assert |pools| == RUN_CONFIG_SIZE;
      hide PoolsMatch;
      i := PageForRun(c, pages);
      ClearRun(k, PagePos(c, i), members, full);
      PushRun(k, PagePos(c, i), members, full);
    }

    /** The page of a new run: the chunk leaves its place in the index if that was the last one. */
    method PageForRun(c: int, ghost pages: map<int, set<nat>>) returns (i: nat)
      requires ChunksMatch(chunks, pages) && IndexMatch(index, pages) && c in chunks && c in pages && |pages[c]| < PAGES
      requires 0 in pages[c]
      modifies index, chunks[c], chunks[c].bitmap
      ensures 0 < i < PAGES && i !in pages[c] && forall j: nat :: j < i ==> j in pages[c]
      ensures ChunksMatch(chunks, pages[c := pages[c] + {i}]) && IndexMatch(index, pages[c := pages[c] + {i}])
    {
      hide IsPool, ChunksMatch, IndexMatch;
      i := TakeChunkPage(c, pages);
      ghost var now := pages[c] + {i};
      if chunks[c].used == PAGES {
        SetKey(c, 0, pages, pages[c := now]);
      } else {
        IndexKept(pages, c, now);
      }
    }

    // ----- allocating -----

    /** get_avaliable_chunk for runs: a chunk with a free page, 0 if there is none. */
    method FindChunk() returns (c: int)
      requires Valid()
      ensures c != 0 ==> c in state.pages && c in chunks && |state.pages[c]| < PAGES
      ensures c == 0 ==> forall d :: d in state.pages ==> |state.pages[d]| == PAGES
    {
      hide IsPool, SmallChunk.Pages, SmallHolds, PoolsMatch;
      c := GetAvailableChunk(index, 1);
      if c != 0 { PagesAtMost(state.pages, c); }
    }

    /** A new run of a class that offers nothing. */
    method RunInChunk(c: int, k: int, ghost s: Small) returns (p: int)
      requires Valid() && state == s && c in chunks && c in s.pages && |s.pages[c]| < PAGES
      requires 1 <= k < RUN_CONFIG_SIZE == |s.members| && s.members[k] == {}
      modifies this`runs, this`state, pools[k], index, chunks[c], chunks[c].bitmap
      ensures Valid() && (OneSpare(s) ==> OneSpare(state)) && state.pages.Keys == s.pages.Keys
      ensures |state.members| == |s.members|
      ensures p > 0 && p in runs && Offered(runs[p], k) && runs[p].elemsize == ELEM_SIZES[k]
      ensures |pools| == RUN_CONFIG_SIZE && pools[k].root == p
      ensures p !in s.runs && state.runs == s.runs[p := runs[p]] && SmallHolds(state) && Objects() == old(Objects())
      ensures state.members == s.members[k := {p}]
      ensures forall q, u :: Block(state, q, u) <==> Block(s, q, u)
    {
      hide SmallHolds, PoolsMatch, ChunksMatch, IndexMatch, Block, OneSpare, RunHolds, Add;
      var i;
      ghost var l;
      ChunkFacts(s, c);
      NoSpare(s, k);
      p, i, l := NewChunkRun(c, k);
      AddHolds(s, c, i, runs[p], l);
      AddFields(s, c, i, runs[p], l);
      SingleRoot(k, p, state.members);
    }

    lemma SingleRoot(k: int, p: int, members: seq<set<int>>)
      requires PoolsMatch(pools, members, FullRuns(runs), linked) && 0 <= k < RUN_CONFIG_SIZE && members[k] == {p}
      ensures |pools| == RUN_CONFIG_SIZE && pools[k].root == p
    {
      pools[k].SizeCounts();
    }

    /** try_run_pool: the root of a pool is a run with a free slot; it is missing exactly if the
        class offers none. */
    lemma PoolRoot(k: int)
      requires Valid() && 1 <= k < RUN_CONFIG_SIZE
      ensures |pools| == RUN_CONFIG_SIZE == |state.members| && (pools[k].root == 0 <==> state.members[k] == {})
      ensures var p := pools[k].root;
        p != 0 ==> p > 0 && p in runs && Offered(runs[p], k) && runs[p].elemsize == ELEM_SIZES[k]
      ensures pools[k].root == 0 <==> forall q :: q in runs ==> !Offered(runs[q], k)
      ensures NothingFor(state, k) <==> pools[k].root == 0 && forall c :: c in state.pages ==> |state.pages[c]| == PAGES
    {
      hide ChunksMatch, IndexMatch, RunHolds;
      pools[k].SizeCounts();
      NothingExact(state, k);
      var p := pools[k].root;
      assert PoolAt(state, k);
      if p == 0 { NoMembers(state.members[k]); }
      if p != 0 {
        assert RunAt(state, p);
      }
    }

    // ----- freeing -----

    /** find_run: the run with this offset, 0 if its page is not used. */
    method FindRun(c: int, offset: nat) returns (p: int)
      requires Valid() && c in chunks && c in state.pages
      ensures var i := offset / RUN_SIZE; p == if i < PAGES && i in state.pages[c] then PagePos(c, i) else 0
    {
      p := 0;
      if offset / RUN_SIZE < PAGES {
        var used := BitmapGet(chunks[c].bitmap, offset / RUN_SIZE);
        if used { p := PagePos(c, offset / RUN_SIZE); }
      }
    }

    /** check_chunk_small. The header page is marked as used and read as if it were a run; `header` is
        the number that lies where a run has its slot size. */
    method CheckSmall(c: int, offset: nat, header: nat) returns (r: int)
      requires Valid() && c in chunks && c in state.pages
      ensures offset < RUN_SIZE ==> r == header
      ensures offset >= RUN_SIZE && Used(c, offset) ==>
        PagePos(c, offset / RUN_SIZE) in runs && r == runs[PagePos(c, offset / RUN_SIZE)].elemsize
      ensures offset >= RUN_SIZE && !Used(c, offset) ==> r == 0
    {
      hide PoolsMatch, IndexMatch, RunHolds;
      var p := FindRun(c, offset);
      assert ChunkAt(state, c);
      r := 0;
      if p == c {
        r := header;
      } else if p != 0 {
        r := runs[p].elemsize;
      }
    }

    /** The offset is in a used page. */
    ghost predicate Used(c: int, offset: nat)
      reads this
    {
      c in state.pages && offset / RUN_SIZE < PAGES && offset / RUN_SIZE in state.pages[c]
    }

    /** What the code does not check: an offset in a used page is that of a live block, and the run
        it is in, if it is full, has no links left over from its time in the pool. */
    ghost predicate Legal(c: int, offset: nat)
      reads this, pools
    {
      Used(c, offset) ==>
        var p := PagePos(c, offset / RUN_SIZE);
        Block(state, p, offset % RUN_SIZE) && p !in linked
    }

    lemma UsedPage(c: int, offset: nat)
      ensures Used(c, offset) <==> c in state.pages && offset / RUN_SIZE < PAGES && offset / RUN_SIZE in state.pages[c]
    {
    }

    /** free_chunk_small */
    method FreeChunkSmall(c: int, offset: nat) returns (check: bool)
      requires Valid() && c in chunks && c in state.pages && Legal(c, offset)
      modifies this`runs, this`state, pools, index, chunks[c], chunks[c].bitmap
      ensures Valid()
      ensures !old(Used(c, offset)) ==> !check && state == old(state)
      ensures old(Used(c, offset)) ==> FreedBy(old(state), state, c, offset / RUN_SIZE, offset % RUN_SIZE, check)
      ensures old(Used(c, offset)) ==>
        RunsAfter(old(state), state, PagePos(c, offset / RUN_SIZE), offset % RUN_SIZE)
    {
      UsedBlock(c, offset);
      hide RunsAfter;
      var p := FindRun(c, offset);
      ghost var s := state;
      hide SmallHolds, PoolsMatch, ChunksMatch, IndexMatch, RunHolds, Block, LiveSlots, Detached, Sits, Unlinked;
      hide InPage, FreedBy;
      ChunkFacts(s, c);
      check := false;
      if p != 0 {
        var i, o := offset / RUN_SIZE, offset % RUN_SIZE;
        SitsThere(s, c, i, o);
        SitsFacts(s, p, c, i);
        check := FreeInRun(c, i, o, p, runs[p].confIndex, s);
      }
    }

    method FreeInRun(c: int, i: nat, o: int, p: int, k: int, ghost s: Small) returns (check: bool)
      requires Valid() && state == s && c in chunks && p > 0 && p == PagePos(c, i) && Sits(s, p, c, i, k)
      requires Block(s, p, o) && 0 <= k < RUN_CONFIG_SIZE
      requires p !in linked
      modifies this`runs, this`state, pools[k], index, chunks[c], chunks[c].bitmap
      ensures Valid() && FreedBy(s, state, c, i, o, check)
    {
      hide SmallHolds, PoolsMatch, ChunksMatch, IndexMatch, RunHolds, LiveSlots, Give, Drop, Unlinked, InPage;
      GiveHolds(s, p, o);
      GiveSits(s, p, o, c, i);
      GiveFields(s, p, o);
      FullNotOffered(s, p);
      UsedBounds(s, p);
      GiveBack(p, o, k, s, Give(s, p, o));
      check := DropIfSpare(c, i, k, p, state);
      FreedPages(s, c, i, o);
    }

    /** The slot goes back to its run, and a run that was full goes back to its pool. */
    method GiveBack(p: int, o: int, k: int, ghost s: Small, ghost s1: Small)
      requires Valid() && state == s && SmallHolds(s1) && p in s.runs && 0 <= k < RUN_CONFIG_SIZE == |s.members|
      requires s1.runs == s.runs[p := GiveSlot(s.runs[p], o)] && s1.pages == s.pages
      requires var full := s.runs[p].used == s.runs[p].total;
        s1.members == (if full then s.members[k := s.members[k] + {p}] else s.members)
        && (full ==> p !in s.members[k] && p > 0) && p !in linked && (!full ==> s.runs[p].used < s.runs[p].total)
        && k == s.runs[p].confIndex
      modifies this`runs, this`state, pools[k]
      ensures Valid() && state == s1
    {
      hide SmallHolds, PoolsMatch, ChunksMatch, IndexMatch, Unlinked, GiveSlot, FullRuns;
      GiveFull(s.runs, p, o);
      InFull(s.runs, p);
      var run := runs[p];
      runs := runs[p := GiveSlot(run, o)];
      state := s1;
      PushIf(run.used == run.total, k, p, s.members, FullRuns(s.runs));
    }

    lemma InFull(runs: map<int, Run>, p: int)
      requires p in runs
      ensures p in FullRuns(runs) <==> runs[p].used == runs[p].total
      ensures p in FullRuns(runs) ==> FullRuns(runs)[p] == runs[p].confIndex
    {
    }

    method PushIf(isFull: bool, k: int, p: int, ghost members: seq<set<int>>, ghost full: map<int, int>)
      requires PoolsMatch(pools, members, full, linked) && Apart() && 0 <= k < RUN_CONFIG_SIZE && p !in linked
      requires isFull ==> p !in members[k] && p > 0 && p in full && full[p] == k
      modifies pools[k]
      ensures if isFull then PoolsMatch(pools, members[k := members[k] + {p}], full - {p}, linked)
        else PoolsMatch(pools, members, full, linked)
    {
      if isFull {
        NotLinked(k, p, members, full);
        hide PoolsMatch;
        PushRun(k, p, members, full - {p});
      }
    }

    lemma NotLinked(k: int, p: int, members: seq<set<int>>, full: map<int, int>)
      requires PoolsMatch(pools, members, full, linked) && p in full && full[p] == k && p !in linked
      ensures Unlinked(pools, k, p) && PoolsMatch(pools, members, full - {p}, linked)
    {
      hide Unlinked;
      assert FullMatch(pools, members, k, p, linked);
    }

    /** free_chunk for a chunk of runs: an empty chunk leaves the index. */
    method FreeSmall(c: int, offset: nat) returns (check: bool)
      requires Valid() && c in chunks && c in state.pages && Legal(c, offset)
      modifies this`runs, this`state, this`chunks, pools, index, chunks[c], chunks[c].bitmap
      ensures Valid() && chunks == (if check then old(chunks) - {c} else old(chunks)) && Objects() <= old(Objects())
      ensures old(OneSpare(state)) ==> OneSpare(state)
      ensures !old(Used(c, offset)) ==> !check && state == old(state)
      ensures old(Used(c, offset)) ==> FreedTo(old(state), state, c, offset / RUN_SIZE, offset % RUN_SIZE, check)
      ensures old(Used(c, offset)) ==> (check <==> forall p :: p in runs ==> !OnChunk(p, c))
      ensures old(Used(c, offset)) ==>
        RunsAfter(old(state), state, PagePos(c, offset / RUN_SIZE), offset % RUN_SIZE)
      ensures old(Used(c, offset)) ==>
        var p, o := PagePos(c, offset / RUN_SIZE), offset % RUN_SIZE;
        forall q, u :: Block(state, q, u) <==> Block(old(state), q, u) && !(q == p && u == o)
    {
      ghost var s := state;
      hide SmallHolds, PoolsMatch, ChunksMatch, IndexMatch, Block, OneSpare, Freed, RunsAfter;
      UsedBlock(c, offset);
      ghost var used := Used(c, offset);
      check := FreeChunkSmall(c, offset);
      if used { EmptyChunkExact(state, c); }
      if check {
        ghost var s1 := state;
        DropChunkHolds(state, c);
        DropChunk(c, state);
        SameRunsAfter(s, s1, state, PagePos(c, offset / RUN_SIZE), offset % RUN_SIZE);
      }
    }

    /** delete_chunk */
    method DropChunk(c: int, ghost s: Small)
      requires Valid() && state == s && c in chunks && c in s.pages && s.pages[c] == {0}
      modifies this`state, this`chunks, index
      ensures Valid() && state == s.(pages := s.pages - {c}) && chunks == old(chunks) - {c}
    {
      hide SmallHolds, PoolsMatch, ChunksMatch, IndexMatch;
      DropChunkHolds(s, c);
      Unindex(c, s.pages);
      ChunkRemoved(chunks, s.pages, c);
      chunks := chunks - {c};
      state := s.(pages := s.pages - {c});
    }

    method Unindex(c: int, ghost pages: map<int, set<nat>>)
      requires IndexMatch(index, pages) && c in pages
      modifies index
      ensures IndexMatch(index, pages - {c})
    {
      hide IsPool;
      DeleteFromPool(index, c);
    }

    lemma UsedBlock(c: int, offset: nat)
      requires SmallHolds(state) && c in state.pages && Legal(c, offset)
      ensures Used(c, offset) ==>
        var s, p, o := state, PagePos(c, offset / RUN_SIZE), offset % RUN_SIZE;
        && Block(s, p, o) && 0 <= s.runs[p].confIndex < |s.members|
        && var s' := Freed(s, c, offset / RUN_SIZE, o);
          SmallHolds(s') && (OneSpare(s) ==> OneSpare(s')) && RunsAfter(s, s', p, o)
          && forall q, u :: Block(s', q, u) <==> Block(s, q, u) && !(q == p && u == o)
    {
      if Used(c, offset) { FreedHolds(state, c, offset / RUN_SIZE, offset % RUN_SIZE); }
    }

    /** The end of free_chunk_small: an empty run goes if its class offers another one. */
    method DropIfSpare(c: int, i: nat, k: int, p: int, ghost s: Small) returns (check: bool)
      requires Valid() && state == s && c in chunks && Sits(s, p, c, i, k)
      requires (s.runs[p].used == 0 ==> p in s.members[k])
      modifies this`runs, this`state, pools[k], index, chunks[c], chunks[c].bitmap
      ensures Valid()
      ensures p !in state.runs <==>
        s.runs[p].used == 0 && exists q :: q != p && q in s.runs && Offered(s.runs[q], k)
      ensures Superfluous(s, p) ==> state == Drop(s, p, c, i) && (check <==> s.pages[c] - {i} == {0})
      ensures !Superfluous(s, p) ==> !check && state == s
    {
      PoolSize(k, s.members);
      SpareExact(s, p, c, i, k);
      hide SmallHolds, PoolsMatch, ChunksMatch, IndexMatch, Drop;
      check := false;
      if runs[p].used == 0 && pools[k].size > 1 {
        check := DropRun(c, i, k, p, s);
      }
    }

    method DropRun(c: int, i: nat, k: int, p: int, ghost s: Small) returns (check: bool)
      requires Valid() && state == s && c in chunks && Sits(s, p, c, i, k) && s.runs[p].used == 0 && p in s.members[k]
      modifies this`runs, this`state, pools[k], index, chunks[c], chunks[c].bitmap
      ensures Valid() && state == Drop(s, p, c, i)
      ensures check <==> s.pages[c] - {i} == {0}
    {
      hide SmallHolds, PoolsMatch, ChunksMatch, IndexMatch, Drop, Block, FullRuns;
      DropHolds(s, p, c, i);
      DropFields(s, p, c, i);
      UsedBounds(s, p);
      DropFull(s.runs, p);
      check := Unplace(c, i, k, p, s.pages, s.members, FullRuns(s.runs));
      runs := runs - {p};
      state := Drop(s, p, c, i);
    }

    lemma PoolSize(k: int, members: seq<set<int>>)
      requires PoolsMatch(pools, members, FullRuns(runs), linked) && 0 <= k < RUN_CONFIG_SIZE
      ensures |pools| == RUN_CONFIG_SIZE && pools[k].size == |members[k]|
    {
      pools[k].SizeCounts();
    }

    method Unplace(c: int, i: nat, k: int, p: int, ghost pages: map<int, set<nat>>, ghost members: seq<set<int>>,
        ghost full: map<int, int>)
      returns (check: bool)
      requires ChunksMatch(chunks, pages) && IndexMatch(index, pages) && PoolsMatch(pools, members, full, linked)
      requires Apart()
      requires c in chunks && c in pages && 0 in pages[c] && i in pages[c] && 0 < i < PAGES && 0 <= k < RUN_CONFIG_SIZE
      requires p in members[k]
      modifies pools[k], index, chunks[c], chunks[c].bitmap
      ensures ChunksMatch(chunks, pages[c := pages[c] - {i}]) && IndexMatch(index, pages[c := pages[c] - {i}])
      ensures PoolsMatch(pools, members[k := members[k] - {p}], full, linked)
      ensures check <==> pages[c] - {i} == {0}
    {
      assert |pools| == RUN_CONFIG_SIZE;
      hide PoolsMatch, ChunksMatch, IndexMatch;
      RemoveRun(k, p, members, full);
      check := PageFreed(c, i, pages);
    }

    method PageFreed(c: int, i: nat, ghost pages: map<int, set<nat>>) returns (check: bool)
      requires ChunksMatch(chunks, pages) && IndexMatch(index, pages) && c in chunks && c in pages && 0 in pages[c]
      requires i in pages[c] && 0 < i < PAGES
      modifies index, chunks[c], chunks[c].bitmap
      ensures ChunksMatch(chunks, pages[c := pages[c] - {i}]) && IndexMatch(index, pages[c := pages[c] - {i}])
      ensures check <==> pages[c] - {i} == {0}
    {
      PagesAtMost(pages, c);
      hide ChunksMatch, IndexMatch;
      ghost var now := pages[c] - {i};
      if chunks[c].used == PAGES {
        SetKey(c, 1, pages, pages[c := now]);
      } else {
        IndexKept(pages, c, now);
      }
      GiveChunkPage(c, i, pages);
      check := chunks[c].used == 1;
      OnlyHeader(now);
    }

    lemma PagesAtMost(pages: map<int, set<nat>>, c: int)
      requires ChunksMatch(chunks, pages) && c in pages
      ensures |pages[c]| <= PAGES && c in chunks && chunks[c].used == |pages[c]|
    {
      AtMostPages(pages[c]);
    }

    // ----- chunk and index steps -----

    method TakeChunkPage(c: int, ghost pages: map<int, set<nat>>) returns (i: nat)
      requires ChunksMatch(chunks, pages) && c in chunks && |pages[c]| < PAGES
      modifies chunks[c], chunks[c].bitmap
      ensures i < PAGES && c in pages && i !in pages[c] && ChunksMatch(chunks, pages[c := pages[c] + {i}])
      ensures forall j: nat :: j < i ==> j in pages[c]
      ensures chunks[c].used == |pages[c] + {i}|
    {
      hide SmallChunk.Pages;
      i := chunks[c].TakePage();
    }

    method GiveChunkPage(c: int, i: nat, ghost pages: map<int, set<nat>>)
      requires ChunksMatch(chunks, pages) && c in chunks && c in pages && i in pages[c] && i < PAGES
      modifies chunks[c], chunks[c].bitmap
      ensures ChunksMatch(chunks, pages[c := pages[c] - {i}]) && chunks[c].used == |pages[c] - {i}|
    {
      hide SmallChunk.Pages;
      chunks[c].GivePage(i);
    }

    /** update_chunk_pool */
    method SetKey(c: int, newMax: uint31, ghost before: map<int, set<nat>>, ghost pages: map<int, set<nat>>)
      requires IndexMatch(index, before) && c in before && pages.Keys == before.Keys
      requires forall d :: d in pages && d != c ==> pages[d] == before[d]
      requires newMax == if |pages[c]| == PAGES then 0 else 1
      modifies index
      ensures IndexMatch(index, pages)
    {
      hide IsPool;
      UpdateChunkPool(index, c, newMax);
    }

    lemma IndexKept(before: map<int, set<nat>>, c: int, now: set<nat>)
      requires IndexMatch(index, before) && c in before && (|now| == PAGES <==> |before[c]| == PAGES)
      ensures IndexMatch(index, before[c := now])
    {
    }

    /** A user writes into a block it holds; nothing else is touched. */
    method UserWrite(p: int, o: int, value: int)
      requires Valid() && Block(state, p, o)
      modifies this`runs, this`state
      ensures Valid() && (forall q, u :: Block(state, q, u) <==> Block(old(state), q, u))
      ensures p in old(state).runs && state == Written(old(state), p, o, value)
      ensures (OneSpare(old(state)) ==> OneSpare(state)) && Objects() == old(Objects())
    {
      hide *;
      ObjectsAre();
      Inside();
      InRuns(p, o);
      WriteKeeps(state, p, o, value);
      WriteFull(runs, p, runs[p].words[o := value]);
      ghost var s := state;
      PartsOfValid();
      runs := runs[p := runs[p].(words := runs[p].words[o := value])];
      state := Written(s, p, o, value);
      WrittenIs(s, p, o, value);
      ObjectsAre();
      MakeValid();
    }

    lemma InRuns(p: int, o: int)
      ensures Block(state, p, o) ==> p in state.runs
    {
    }

    lemma PartsOfValid()
      requires Valid()
      ensures Apart() && SmallHolds(state) && state.runs == runs
      ensures PoolsMatch(pools, state.members, FullRuns(runs), linked) && (clears ==> linked == {})
      ensures ChunksMatch(chunks, state.pages) && IndexMatch(index, state.pages)
      ensures index as object != this && (forall k :: 0 <= k < |pools| ==> pools[k] as object != this)
      ensures forall c :: c in chunks ==> chunks[c] as object != this && chunks[c].bitmap as object != this
    {
    }

    lemma MakeValid()
      requires Apart() && SmallHolds(state) && state.runs == runs
      requires PoolsMatch(pools, state.members, FullRuns(runs), linked) && (clears ==> linked == {})
      requires ChunksMatch(chunks, state.pages) && IndexMatch(index, state.pages)
      ensures Valid()
    {
    }

    // ----- pool steps -----

    method ClearRun(k: int, p: int, ghost members: seq<set<int>>, ghost full: map<int, int>)
      requires PoolsMatch(pools, members, full, linked) && Apart() && 0 <= k < RUN_CONFIG_SIZE && p !in members[k]
      requires p !in full && p > 0
      modifies pools[k]
      ensures PoolsMatch(pools, members, full, linked) && Unlinked(pools, k, p)
    {
      hide Pool.Valid, Pool.Members;
      pools[k].Clear(p);
    }

    method PopRun(k: int, p: int, ghost members: seq<set<int>>, ghost full: map<int, int>, ghost linked: set<int>)
      requires PoolsMatch(pools, members, full, linked) && Apart() && 0 <= k < RUN_CONFIG_SIZE && p in members[k]
      requires p !in full && pools[k].root == p
      modifies pools[k]
      ensures PoolsMatch(pools, members[k := members[k] - {p}], full[p := k],
        if clears || |members[k]| == 1 then linked else linked + {p})
    {
      hide Pool.Valid, Pool.Members;
      pools[k].SizeCounts();
      pools[k].Pop();
    }

    method PushRun(k: int, p: int, ghost members: seq<set<int>>, ghost full: map<int, int>)
      requires PoolsMatch(pools, members, full, linked) && Apart() && 0 <= k < RUN_CONFIG_SIZE && p !in members[k]
      requires p !in full && p > 0
      requires Unlinked(pools, k, p)
      modifies pools[k]
      ensures PoolsMatch(pools, members[k := members[k] + {p}], full, linked)
    {
      hide Pool.Valid, Pool.Members;
      pools[k].Push(p);
    }

    method RemoveRun(k: int, p: int, ghost members: seq<set<int>>, ghost full: map<int, int>)
      requires PoolsMatch(pools, members, full, linked) && Apart() && 0 <= k < RUN_CONFIG_SIZE && p in members[k]
      modifies pools[k]
      ensures PoolsMatch(pools, members[k := members[k] - {p}], full, linked)
    {
      hide Pool.Valid, Pool.Members;
      pools[k].Remove(p);
    }
  }
}
