/** shm_init, shm_malloc, shm_free and shm_realloc of src/shm_malloc.c over one heap. */
module SharedMalloc {
  import opened Basics
  import opened RedBlackTree
  import opened RedBlackMemory
  import opened ChunkPool
  import opened RunPool
  import opened MappingCache
  import opened ArenaTable
  import opened WholeHeap
  import opened WholeFree
  import opened Context
  import R = SmallRun
  import S = SmallState
  import H = SmallHeap
  import C = MediumChunk
  import M = MediumPool

  // ----- from nothing -----

  /** The run pools of a cleared context. */
  method NewPools(clears: bool) returns (pools: seq<Pool>)
    ensures H.PoolsMatch(pools, seq(R.RUN_CONFIG_SIZE, k => {}), map[], {})
    ensures forall p :: p in pools ==> fresh(p) && p.clears == clears
  {
    pools := [];
    for k := 0 to R.RUN_CONFIG_SIZE
      invariant |pools| == k && (forall i, j :: 0 <= i < j < k ==> pools[i] != pools[j])
      invariant forall i ::
        0 <= i < k ==> fresh(pools[i]) && pools[i].clears == clears && pools[i].Valid() && pools[i].Members() == {}
    {
      var p := new Pool(map[], clears);
      pools := pools + [p];
    }
  }

  /** An index of chunks without a chunk. */
  method NewIndex() returns (index: RBTree<ChunkKey>)
    ensures IsPool(index) && index.Contents() == [] && fresh(index)
  {
    index := new RBTree<ChunkKey>(ChunkTreeCompare, map[]);
    NoneSorted(index);
  }

  lemma NoneSorted(index: RBTree<ChunkKey>)
    ensures index.Contents() == [] ==> index.Ordered()
  {
  }

  method NewSmalls(clears: bool) returns (small: H.Allocator)
    ensures small.Valid() && small.state.pages == map[] && small.state.runs == map[] && S.OneSpare(small.state)
    ensures fresh(small.Objects()) && small.clears == clears && small.linked == {}
  {
    hide IsPool, H.PoolsMatch, H.Allocator.Valid, H.Allocator.Objects, RBTree.Contents;
    var pools := NewPools(clears);
    var index := NewIndex();
    ghost var own := set p | p in pools;
    assert fresh(own);
    assert |pools| == R.RUN_CONFIG_SIZE && forall k :: 0 <= k < |pools| ==> pools[k].clears == clears by {
      PoolCount(pools, seq(R.RUN_CONFIG_SIZE, k => {}));
    }
    small := new H.Allocator(pools, index, clears);
  }

  lemma PoolCount(pools: seq<Pool>, members: seq<set<int>>)
    requires H.PoolsMatch(pools, members, map[], {})
    ensures |pools| == R.RUN_CONFIG_SIZE
  {
  }

  method NewMediums(cmp: (C.MediumKey, C.MediumKey) -> int) returns (medium: M.Mediums)
    ensures medium.Valid() && medium.units == map[] && medium.cmp == cmp && medium.repr == {} && fresh(medium)
    ensures fresh(medium.pool)
    ensures M.AllExact(medium.chunks, {})
  {
    hide IsPool, M.Mediums.Valid, RBTree.Contents;
    var index := NewIndex();
    medium := new M.Mediums(index, cmp);
  }

  /** init_shm_shared_field: a heap of which all invariants hold and in which nobody holds a block. */
  method InitSharedContext(clears: bool, cmp: (C.MediumKey, C.MediumKey) -> int) returns (context: Context)
    ensures context.Valid() && S.OneSpare(context.w.small) && context.small.clears == clears
    ensures context.medium.cmp == cmp
    ensures (forall a, b :: cmp(a, b) == C.SizeIndexCompare(a, b)) ==> context.Exact()
    ensures (forall pos, len :: !LiveAt(context.w, pos, len)) && context.small.linked == {}
    ensures |context.w.table| == ARENAS && context.w.table[0].kind == ContextArena
    ensures forall i :: 0 < i < ARENAS ==> context.w.table[i].kind == EmptyArena
    ensures fresh(context) && fresh(context.table) && fresh(context.small) && fresh(context.smallRepr)
    ensures fresh(context.medium) && fresh(context.medium.pool) && fresh(context.medium.repr)
  {
    hide *;
    NoSegments();
    var table := new Arenas();
    var medium := NewMediums(cmp);
    var small := NewSmalls(clears);
    context := new Context(table, small, medium);
    context.Parts();
    context.ExactParts();
  }

  lemma NoSegments()
    ensures ARENAS > 0
  {
  }

  // ----- what the calls say -----

  /** How a request changes the set of full runs that keep links. */
  ghost predicate LinksStep(s: S.Small, linked: set<int>, linked': set<int>, size: nat, r: C.MallocResult,
      clears: bool)
  {
    if 0 < size <= R.CHUNK_SMALL_LIMIT then r.Allocated? && linked' == S.LinkedAfter(s, linked, r.pos, clears)
    else linked' == linked
  }

  lemma AsLinks(s: S.Small, linked: set<int>, linked': set<int>, size: nat, r: C.MallocResult, clears: bool)
    requires size == 0 ==> linked' == linked
    requires 0 < size <= R.CHUNK_SMALL_LIMIT ==> r.Allocated? && linked' == S.LinkedAfter(s, linked, r.pos, clears)
    requires size > R.CHUNK_SMALL_LIMIT ==> linked' == linked
    ensures LinksStep(s, linked, linked', size, r, clears)
  {
  }

  /** What a request for `size` bytes leaves: a new block of the least length that fits, or nothing new. */
  ghost predicate Allocates(w0: Whole, w1: Whole, size: nat, r: C.MallocResult, len: int) {
    match r
    case AssertionFailed => SameLive(w0, w1)
    case Allocated(pos) =>
      if pos == 0 then w1 == w0
      else OneMore(w0, w1, pos, len) && len >= size && Fitted(size, len) && RunsStep(w0.small, w1.small, size, pos)
  }

  /** How a request that gets a block at `pos` changes the runs. */
  ghost predicate RunsStep(s: S.Small, s': S.Small, size: nat, pos: int) {
    if 0 < size <= R.CHUNK_SMALL_LIMIT then S.RunsFor(s, s', pos - pos % R.RUN_SIZE, R.FindRunConfig(size))
    else s' == s
  }

  lemma AsRuns(s: S.Small, s': S.Small, size: nat, pos: int)
    requires size > 0 && (size > R.CHUNK_SMALL_LIMIT ==> s' == s)
    requires size <= R.CHUNK_SMALL_LIMIT ==> S.RunsFor(s, s', pos - pos % R.RUN_SIZE, R.FindRunConfig(size))
    ensures RunsStep(s, s', size, pos)
  {
  }

  /** The block at `from` is not held any more, and one at `to` is that was not; all others are as before. */
  ghost predicate Moved(w0: Whole, w1: Whole, from: int, to: int, len: int) {
    && from != to && (exists l :: LiveAt(w0, from, l)) && (forall l :: !LiveAt(w0, to, l))
    && forall pos, l :: LiveAt(w1, pos, l) <==> if pos == to then l == len else pos != from && LiveAt(w0, pos, l)
  }

  /** What a request to let the block at `from` grow leaves: a longer block elsewhere, or the old one. */
  ghost predicate Regrown(w0: Whole, w1: Whole, from: int, size: nat, r: C.MallocResult, len: int) {
    match r
    case AssertionFailed => SameLive(w0, w1)
    case Allocated(pos) =>
      if pos == 0 then w1 == w0 else Moved(w0, w1, from, pos, len) && len >= size && Fitted(size, len)
  }

  lemma MoreThenLess(w0: Whole, w1: Whole, w2: Whole, from: int, l: int, to: int, len: int)
    requires LiveAt(w0, from, l) && OneMore(w0, w1, to, len) && OneMore(w2, w1, from, l)
    ensures Moved(w0, w2, from, to, len)
  {
    hide LiveAt;
  }

  lemma AsGiven(w0: Whole, w1: Whole, size: nat, r: C.MallocResult, len: int)
    requires r == C.Allocated(0) ==> w1 == w0
    requires r.AssertionFailed? ==> SameLive(w0, w1)
    requires r.Allocated? && r.pos != 0 ==>
      OneMore(w0, w1, r.pos, len) && len >= size && Fitted(size, len) && RunsStep(w0.small, w1.small, size, r.pos)
    ensures Allocates(w0, w1, size, r, len)
  {
  }

  /** What a request finds: the table it leaves, and null exactly if there is nothing left for it. */
  ghost predicate TablesFor(h: Whole, maxes: map<int, int>, t: seq<Arena>, size: nat, mapped: bool, r: C.MallocResult) {
    && |h.table| == ARENAS && size > 0 && t == TableFor(h, maxes, size, mapped)
    && (r == C.Allocated(0) <==> NoneLeft(h, maxes, size, mapped))
  }

  lemma AsTables(h: Whole, maxes: map<int, int>, t: seq<Arena>, size: nat, mapped: bool, r: C.MallocResult)
    requires |h.table| == ARENAS && size > 0 && t == TableFor(h, maxes, size, mapped)
    requires r == C.Allocated(0) <==> NoneLeft(h, maxes, size, mapped)
    ensures TablesFor(h, maxes, t, size, mapped, r)
  {
  }

  /** A medium request, and the chunk picked for it fails the assertions. */
  ghost predicate RefusesPages(context: Context, size: nat)
    reads context, context.medium, context.medium.pool, context.medium.repr
  {
    R.CHUNK_SMALL_LIMIT < size <= (UNITS - 1) * PAGE_SIZE && context.medium.Refuses(size)
  }

  lemma RefusesIs(context: Context, size: nat)
    ensures RefusesPages(context, size) <==>
      R.CHUNK_SMALL_LIMIT < size <= (UNITS - 1) * PAGE_SIZE && context.medium.Refuses(size)
  {
  }

  /** shm_malloc */
  method ShmMalloc(context: Context, size: nat, mapped: bool, pages: Memory<C.MediumKey>)
    returns (r: C.MallocResult, ghost len: int)
    requires context.Valid() && ENODE !in pages && forall p :: 1 <= p < UNITS ==> p in pages
    modifies context`w, context`smallRepr, context.table, context.smallRepr, context.medium, context.medium.pool
    modifies context.medium.repr
    ensures context.Valid() && fresh(context.smallRepr - old(context.smallRepr))
    ensures fresh(context.medium.repr - old(context.medium.repr))
    ensures Allocates(old(context.w), context.w, size, r, len) && (size == 0 ==> r == C.Allocated(0))
    ensures var c := context.small;
      LinksStep(old(context.small.state), old(context.small.linked), c.linked, size, r, c.clears)
    ensures size > 0 ==> TablesFor(old(context.w), old(context.medium.maxes), context.w.table, size, mapped, r)
    ensures C.Written(context.medium.cmp) ==> (r.AssertionFailed? <==> old(RefusesPages(context, size)))
    ensures C.Written(context.medium.cmp) && r.AssertionFailed? ==> RefusesPages(context, size)
    ensures old(context.Exact()) ==> context.Exact() && r.Allocated?
    ensures S.OneSpare(old(context.w).small) ==> S.OneSpare(context.w.small)
  {
    hide *;
    RefusesIs(context, size);
    context.SmallLimit();
    r, len := C.Allocated(0), 0;
    if size != 0 {
      r, len := context.MallocArena(size, mapped, pages);
      AsTables(old(context.w), old(context.medium.maxes), context.w.table, size, mapped, r);
      if r.Allocated? && r.pos != 0 { AsRuns(old(context.w).small, context.w.small, size, r.pos); }
    }
    RefusesIs(context, size);
    AsGiven(old(context.w), context.w, size, r, len);
    AsLinks(old(context.small.state), old(context.small.linked), context.small.linked, size, r, context.small.clears);
  }

  /** pos2index and pos2offset invert index2pos. */
  lemma IndexOffset(pos: nat)
    ensures Pos(pos / ARENA_SPAN, pos % ARENA_SPAN) == pos && pos % ARENA_SPAN < ARENA_SPAN && pos / ARENA_SPAN >= 0
  {
  }

  /** shm_free */
  method ShmFree(context: Context, pos: nat)
    requires context.Valid() && (pos != 0 ==> context.MayFree(pos / ARENA_SPAN, pos % ARENA_SPAN))
    modifies context`w, context.table, context.smallRepr, context.medium, context.medium.pool, context.medium.repr
    ensures context.Valid() && (pos == 0 ==> context.w == old(context.w))
    ensures pos != 0 ==> Freed(old(context.w), context.w, pos / ARENA_SPAN, pos % ARENA_SPAN)
    ensures pos != 0 ==> Shrinks(old(context.w), context.w, pos / ARENA_SPAN, pos % ARENA_SPAN)
    ensures context.small.linked == old(context.small.linked) && context.medium.repr == old(context.medium.repr)
    ensures old(context.Exact()) ==> context.Exact()
    ensures S.OneSpare(old(context.w).small) ==> S.OneSpare(context.w.small)
  {
    hide *;
    context.Constants();
    if pos == 0 {
      return;
    }
    IndexOffset(pos);
    context.FreeArena(pos / ARENA_SPAN, pos % ARENA_SPAN);
  }

  // ----- shm_realloc -----

  /** The block named is held, is `len` long, which is less than `size`, and its length is known. */
  ghost predicate MustGrow(context: Context, index: nat, offset: nat, size: nat, len: int)
    reads context, context.table, context.small
  {
    LiveAt(context.w, Named(context.w, index, offset), len) && size > len && context.Answered(index, offset)
  }

  /** Where another block has been given in between, the block named is still there and may be freed. */
  lemma StillMayFree(context: Context, w0: Whole, linked: set<int>, index: nat, offset: nat, l: int, to: int, len: int)
    requires context.Valid() && WholeHolds(w0) && OneMore(w0, context.w, to, len) && offset < ARENA_SPAN
    requires LiveAt(w0, Named(w0, index, offset), l) && l != len
    requires var q := Pos(index, offset) - Pos(index, offset) % R.RUN_SIZE; q !in linked
    requires context.small.linked == linked || context.small.linked == linked + {to - to % R.RUN_SIZE}
    ensures context.MayFree(index, offset) && Named(context.w, index, offset) == Named(w0, index, offset)
    ensures LiveAt(context.w, Named(w0, index, offset), l)
  {
    hide *;
    context.Constants();
    var w1 := context.w;
    context.Parts();
    context.small.LinkedRuns();
    context.small.Inside();
    OtherHeld(w0, w1, Named(w0, index, offset), l, to, len);
    SameNamed(w0, w1, index, offset, l);
    if LargeRow(w1.table, index) {
      context.LargeMayFree(index, offset);
    } else {
      NamedItself(w1, index, offset);
      context.HeldMayFree(index, offset, l);
      var q := Pos(index, offset) - Pos(index, offset) % R.RUN_SIZE;
      if q in context.small.linked {
        RunBlock(w1, q, Pos(index, offset), l);
        RunBlock(w1, q, to, len);
      }
      context.LinkedPage(index, offset);
    }
  }

  lemma OtherHeld(w0: Whole, w1: Whole, pos: int, l: int, to: int, len: int)
    requires LiveAt(w0, pos, l) && OneMore(w0, w1, to, len)
    ensures LiveAt(w1, pos, l) && LiveAt(w1, to, len) && pos != to
  {
    hide LiveAt;
  }

  lemma NamedItself(w: Whole, index: nat, offset: nat)
    ensures !LargeRow(w.table, index) ==> Named(w, index, offset) == Pos(index, offset)
  {
  }

  /** A position names the same block as long as that is held. */
  lemma SameNamed(w0: Whole, w1: Whole, index: nat, offset: nat, l: int)
    requires WholeHolds(w0) && WholeHolds(w1) && offset < ARENA_SPAN
    requires LiveAt(w0, Named(w0, index, offset), l) && LiveAt(w1, Named(w0, index, offset), l)
    ensures Named(w1, index, offset) == Named(w0, index, offset)
  {
    hide LiveAt, WholeHolds;
    RowCount(w0);
    RowCount(w1);
    if LargeRow(w0.table, index) {
      AtArenaStart(w1, index, l);
    } else if LargeRow(w1.table, index) {
      LargeBlockThere(w1, index, offset, l);
      AtArenaStart(w0, index, l);
    }
  }

  lemma GrowIs(context: Context, index: nat, offset: nat, size: nat, len: int)
    ensures MustGrow(context, index, offset, size, len) <==>
      LiveAt(context.w, Named(context.w, index, offset), len) && size > len && context.Answered(index, offset)
  {
  }

  /** The test of shm_realloc, on the answer of check_arena: a block whose length is known is too short. */
  lemma Known(context: Context, index: nat, offset: nat, size: nat, answer: int)
    requires context.Valid() && offset < ARENA_SPAN
    requires context.InRunPage(index, offset) ==> context.Held(index, offset)
    requires forall len ::
      LiveAt(context.w, Pos(index, offset), len) ==> answer == if context.Answered(index, offset) then len else 0
    requires LargeRow(context.w.table, index) ==> answer == context.w.table[index].size
    requires !LargeRow(context.w.table, index) && !context.InRunPage(index, offset) && !context.Held(index, offset) ==>
      answer == 0
    ensures answer >= 0
    ensures size > answer && answer != 0 ==> MustGrow(context, index, offset, size, answer)
    ensures !(size > answer && answer != 0) ==> forall k :: !MustGrow(context, index, offset, size, k)
  {
    hide *;
    var w := context.w;
    context.Parts();
    forall k ensures MustGrow(context, index, offset, size, k) <==>
      LiveAt(w, Named(w, index, offset), k) && size > k && context.Answered(index, offset) {
        GrowIs(context, index, offset, size, k);
      }
    if LargeRow(w.table, index) {
      LargeHeld(w, index);
      NamedLarge(w, index, offset);
      context.LargeAnswered(index, offset);
      forall k | LiveAt(w, Pos(index, 0), k) ensures k == answer { AtArenaStart(w, index, k); }
    } else {
      NamedItself(w, index, offset);
      context.HeldIs(index, offset);
      forall k | LiveAt(w, Pos(index, offset), k) ensures k > 0 { context.HeldPositive(w, Pos(index, offset), k); }
    }
  }

  lemma NamedLarge(w: Whole, index: nat, offset: nat)
    ensures LargeRow(w.table, index) ==>
      Named(w, index, offset) == Pos(index, 0) && index < |w.table| && w.table[index].kind == LargeArena
  {
  }

  /** A new block, and then the old one is freed. `mid` is the heap in between, `between` its table. */
  method Replace(context: Context, index: nat, offset: nat, size: nat, ghost l: int, mapped: bool,
      pages: Memory<C.MediumKey>)
    returns (r: C.MallocResult, between: seq<Arena>, ghost mid: Whole, ghost len: int)
    requires context.Valid() && ENODE !in pages && forall p :: 1 <= p < UNITS ==> p in pages
    requires offset < ARENA_SPAN && size > 0 && context.MayFree(index, offset)
    requires MustGrow(context, index, offset, size, l)
    modifies context`w, context`smallRepr, context.table, context.smallRepr, context.medium, context.medium.pool
    modifies context.medium.repr
    ensures context.Valid() && fresh(context.smallRepr - old(context.smallRepr))
    ensures fresh(context.medium.repr - old(context.medium.repr))
    ensures old(context.Exact()) ==> context.Exact() && r.Allocated?
    ensures S.OneSpare(old(context.w).small) ==> S.OneSpare(context.w.small)
    ensures Regrown(old(context.w), context.w, Named(old(context.w), index, offset), size, r, len)
    ensures C.Written(context.medium.cmp) ==> (r.AssertionFailed? <==> old(RefusesPages(context, size)))
    ensures C.Written(context.medium.cmp) && r.AssertionFailed? ==> RefusesPages(context, size)
    ensures TablesFor(old(context.w), old(context.medium.maxes), between, size, mapped, r)
    ensures mid.table == between && WholeHolds(mid) && Allocates(old(context.w), mid, size, r, len)
    ensures Released(mid, context.w, index, offset, r)
    ensures var c := context.small;
      LinksStep(old(context.small.state), old(context.small.linked), c.linked, size, r, c.clears)
  {
    hide *;
    context.Constants();
    ghost var w0, linked, from := context.w, context.small.linked, Named(context.w, index, offset);
    context.Parts();
    context.NotReserved(index, offset);
    context.LinkedPage(index, offset);
    RefusesIs(context, size);
    GrowIs(context, index, offset, size, l);
    r, len := context.MallocArena(size, mapped, pages);
    AsLinks(old(context.small.state), linked, context.small.linked, size, r, context.small.clears);
    AsTables(w0, old(context.medium.maxes), context.w.table, size, mapped, r);
    RefusesIs(context, size);
    mid := context.w;
    if r.Allocated? && r.pos != 0 { AsRuns(w0.small, mid.small, size, r.pos); }
    AsGiven(w0, mid, size, r, len);
    context.Parts();
    between := context.table.arenas;
    ReleasedIs(mid, index, offset, r);
    if r.Allocated? && r.pos != 0 {
      S.LinkedAtSlot(old(context.small.state), linked, r.pos, context.small.clears);
      StillMayFree(context, w0, linked, index, offset, l, r.pos, len);
      context.Parts();
      context.FreeArena(index, offset);
      FreedNamed(mid, context.w, index, offset, l);
      MoreThenLess(w0, mid, context.w, from, l, r.pos, len);
    }
    AsRegrown(w0, context.w, from, size, r, len);
  }

  /** The second half of a move happens exactly if there is a new block. */
  ghost predicate Released(h: Whole, h': Whole, index: nat, offset: nat, r: C.MallocResult) {
    if r.Allocated? && r.pos != 0 then Shrinks(h, h', index, offset) else h' == h
  }

  lemma ReleasedIs(h: Whole, index: nat, offset: nat, r: C.MallocResult)
    ensures forall h' :: Released(h, h', index, offset, r) <==>
      if r.Allocated? && r.pos != 0 then Shrinks(h, h', index, offset) else h' == h
  {
  }

  lemma AsRegrown(w0: Whole, w1: Whole, from: int, size: nat, r: C.MallocResult, len: int)
    requires r == C.Allocated(0) ==> w1 == w0
    requires r.AssertionFailed? ==> SameLive(w0, w1)
    requires r.Allocated? && r.pos != 0 ==> Moved(w0, w1, from, r.pos, len) && len >= size && Fitted(size, len)
    ensures Regrown(w0, w1, from, size, r, len)
  {
  }

  /** What the code does not check: as for a free, but that the block is in a run that keeps links
      matters only if it is freed. */
  ghost predicate MayRealloc(context: Context, index: nat, offset: nat, size: nat)
    reads context, context.table, context.small
  {
    && (index == 0 ==> offset >= CHUNK_SIZE) && (context.InRunPage(index, offset) ==> context.Held(index, offset))
    && ((exists l :: MustGrow(context, index, offset, size, l)) ==> !context.InLinked(index, offset))
  }

  lemma MayReallocIs(context: Context, index: nat, offset: nat, size: nat)
    requires MayRealloc(context, index, offset, size)
    ensures index == 0 ==> offset >= CHUNK_SIZE
    ensures context.InRunPage(index, offset) ==> context.Held(index, offset)
  {
  }

  lemma MustMayFree(context: Context, index: nat, offset: nat, size: nat, l: int)
    requires MayRealloc(context, index, offset, size) && MustGrow(context, index, offset, size, l)
    ensures context.MayFree(index, offset)
  {
  }

  /** shm_realloc. The block named moves to a longer one exactly if its length is known and too
      short; in every other case its position comes back, also where the block is too short. `header`
      is what a chunk has where a run has its slot size. */
  method ShmRealloc(context: Context, pos: nat, size: nat, header: nat, mapped: bool, pages: Memory<C.MediumKey>)
    returns (r: C.MallocResult, between: seq<Arena>, ghost mid: Whole, ghost len: int)
    requires context.Valid() && ENODE !in pages && forall p :: 1 <= p < UNITS ==> p in pages
    requires pos != 0 ==> MayRealloc(context, pos / ARENA_SPAN, pos % ARENA_SPAN, size)
    modifies context`w, context`smallRepr, context.table, context.smallRepr, context.medium, context.medium.pool
    modifies context.medium.repr
    ensures context.Valid() && fresh(context.smallRepr - old(context.smallRepr))
    ensures fresh(context.medium.repr - old(context.medium.repr))
    ensures old(context.Exact()) ==> context.Exact() && r.Allocated?
    ensures S.OneSpare(old(context.w).small) ==> S.OneSpare(context.w.small)
    ensures pos == 0 ==> Allocates(old(context.w), context.w, size, r, len) && (size == 0 ==> r == C.Allocated(0))
    ensures var s, i, o := context.small, pos / ARENA_SPAN, pos % ARENA_SPAN;
      if pos == 0 || exists l :: old(MustGrow(context, i, o, size, l))
      then LinksStep(old(context.small.state), old(context.small.linked), s.linked, size, r, s.clears)
      else s.linked == old(context.small.linked)
    ensures var i, o := pos / ARENA_SPAN, pos % ARENA_SPAN;
      pos != 0 ==> forall l :: old(MustGrow(context, i, o, size, l)) ==>
        Regrown(old(context.w), context.w, Named(old(context.w), i, o), size, r, len)
    ensures var i, o := pos / ARENA_SPAN, pos % ARENA_SPAN;
      pos != 0 && (forall l :: !old(MustGrow(context, i, o, size, l))) ==>
        && r == C.Allocated(pos) && context.w == old(context.w) && between == context.w.table
        && context.medium.maxes == old(context.medium.maxes)
    ensures var i, o := pos / ARENA_SPAN, pos % ARENA_SPAN;
      pos != 0 && (exists l :: old(MustGrow(context, i, o, size, l))) ==>
        && size > 0 && TablesFor(old(context.w), old(context.medium.maxes), between, size, mapped, r)
        && mid.table == between && WholeHolds(mid) && Allocates(old(context.w), mid, size, r, len)
        && Released(mid, context.w, i, o, r)
        && (C.Written(context.medium.cmp) ==> (r.AssertionFailed? <==> old(RefusesPages(context, size))))
    ensures pos == 0 ==> C.Written(context.medium.cmp) ==> (r.AssertionFailed? <==> old(RefusesPages(context, size)))
    ensures pos == 0 && size > 0 ==>
      TablesFor(old(context.w), old(context.medium.maxes), context.w.table, size, mapped, r)
    ensures C.Written(context.medium.cmp) && r.AssertionFailed? ==> RefusesPages(context, size)
  {
    hide *;
    context.Constants();
    mid := context.w;
    if pos == 0 {
      r, len := ShmMalloc(context, size, mapped, pages);
      between := context.table.arenas;
      return;
    }
    IndexOffset(pos);
    var index, offset := pos / ARENA_SPAN, pos % ARENA_SPAN;
    r, between, len := C.Allocated(pos), context.table.arenas, 0;
    MayReallocIs(context, index, offset, size);
    context.Parts();
    var checksize := context.CheckArena(index, offset, header);
    Known(context, index, offset, size, checksize);
    if size > checksize && checksize != 0 {
      MustMayFree(context, index, offset, size, checksize);
      r, between, mid, len := Replace(context, index, offset, size, checksize, mapped, pages);
    } else {
      forall l ensures !old(MustGrow(context, index, offset, size, l)) {
        assert !MustGrow(context, index, offset, size, l);
      }
    }
  }
}
