/** malloc_arena and free_arena of src/shm_context.c over the whole heap: small runs, medium chunks
    and large arenas behind one table. */
module Context {
  import opened Basics
  import opened RedBlackMemory
  import opened ChunkPool
  import opened MappingCache
  import opened ArenaTable
  import opened WholeHeap
  import opened WholeFree
  import R = SmallRun
  import S = SmallState
  import H = SmallHeap
  import U = MediumUnits
  import C = MediumChunk
  import M = MediumPool

  /** The table a request for `size` bytes leaves: with a new chunk if there is no room for it, and with
      a large arena if it is a large one. `maxes` are the cached maxima of the chunks of pages. */
  ghost function TableFor(h: Whole, maxes: map<int, int>, size: nat, mapped: bool): seq<Arena>
    requires |h.table| == ARENAS && size > 0
  {
    if size <= R.CHUNK_SMALL_LIMIT then TableAfter(h.table, S.NothingFor(h.small, R.FindRunConfig(size)), mapped)
    else if size <= (UNITS - 1) * PAGE_SIZE then TableAfter(h.table, M.NoneReaches(maxes, size), mapped)
    else if mapped then WithLarge(h.table, C.AlignSize(size, CHUNK_SIZE)) else h.table
  }

  /** How long a block for `size` bytes is: as the slots of the smallest class that fits, the fewest pages,
      or the fewest chunks. */
  ghost predicate Fitted(size: nat, len: int) {
    if size <= R.CHUNK_SMALL_LIMIT
    then exists k :: 1 <= k < R.RUN_CONFIG_SIZE && R.ELEM_SIZES[k - 1] < size <= R.ELEM_SIZES[k] == len
    else
      var unit := if size <= (UNITS - 1) * PAGE_SIZE then PAGE_SIZE else CHUNK_SIZE;
      len % unit == 0 && len - unit < size <= len
  }

  lemma FittedIs(size: nat, len: int)
    ensures 0 < size <= R.CHUNK_SMALL_LIMIT && len == R.ELEM_SIZES[R.FindRunConfig(size)] ==> Fitted(size, len)
    ensures R.CHUNK_SMALL_LIMIT < size <= (UNITS - 1) * PAGE_SIZE ==>
      len % PAGE_SIZE == 0 && len - PAGE_SIZE < size <= len ==> Fitted(size, len)
    ensures size > (UNITS - 1) * PAGE_SIZE && size > R.CHUNK_SMALL_LIMIT ==>
      len % CHUNK_SIZE == 0 && len - CHUNK_SIZE < size <= len ==> Fitted(size, len)
  {
  }

  /** There is nothing left for such a request. A small one finds no run of its class with a free slot, no
      chunk of runs with a free page, and no room for a chunk; a medium one no chunk of pages whose cached
      maximum is enough, and no room for a chunk; a large one no memory or no unused row. */
  ghost predicate NoneLeft(h: Whole, maxes: map<int, int>, size: nat, mapped: bool)
    requires |h.table| == ARENAS && size > 0
  {
    if size <= R.CHUNK_SMALL_LIMIT then S.NothingFor(h.small, R.FindRunConfig(size)) && NoChunk(h.table, mapped)
    else if size <= (UNITS - 1) * PAGE_SIZE then M.NoneReaches(maxes, size) && NoChunk(h.table, mapped)
    else !mapped || forall i :: 1 <= i < ARENAS ==> h.table[i].kind != EmptyArena
  }

  lemma TableForIs(h: Whole, maxes: map<int, int>, size: nat, mapped: bool)
    requires |h.table| == ARENAS && size > 0
    ensures FirstUnused(h.table, 1) == ARENAS <==> forall i :: 1 <= i < ARENAS ==> h.table[i].kind != EmptyArena
    ensures size <= R.CHUNK_SMALL_LIMIT ==>
      var none := S.NothingFor(h.small, R.FindRunConfig(size));
      && TableFor(h, maxes, size, mapped) == TableAfter(h.table, none, mapped)
      && (NoneLeft(h, maxes, size, mapped) <==> none && NoChunk(h.table, mapped))
    ensures R.CHUNK_SMALL_LIMIT < size <= (UNITS - 1) * PAGE_SIZE ==>
      var none := M.NoneReaches(maxes, size);
      && TableFor(h, maxes, size, mapped) == TableAfter(h.table, none, mapped)
      && (NoneLeft(h, maxes, size, mapped) <==> none && NoChunk(h.table, mapped))
    ensures size > (UNITS - 1) * PAGE_SIZE && size > R.CHUNK_SMALL_LIMIT ==>
      var none := !mapped || FirstUnused(h.table, 1) == ARENAS;
      && (none ==> TableFor(h, maxes, size, mapped) == h.table)
      && (!none ==> TableFor(h, maxes, size, mapped) == WithLarge(h.table, C.AlignSize(size, CHUNK_SIZE)))
      && (NoneLeft(h, maxes, size, mapped) <==> none)
  {
  }

  class Context {
    const table: Arenas
    const small: H.Allocator
    const medium: M.Mediums
    ghost var smallRepr: set<object>
    ghost var w: Whole

    /** The parts share nothing. */
    ghost predicate Separate()
      reads this, small, medium
    {
      && this !in smallRepr && this !in medium.repr && table !in smallRepr && table !in medium.repr
      && table as object != this
      && medium as object != this && medium.pool as object != this && medium as object != table
      && medium.pool as object != table
      && smallRepr !! medium.repr && medium !in smallRepr && medium.pool !in smallRepr && small.Objects() <= smallRepr
    }

    ghost predicate Valid()
      reads this, table, small, smallRepr, medium, medium.pool, medium.repr
    {
      && Separate() && small.Valid() && medium.Valid() && WholeHolds(w)
      && small.state == w.small && medium.units == w.medium && table.arenas == w.table
    }

    /** The context as init_shared_context leaves it: no chunk, no block. */
    constructor (table: Arenas, small: H.Allocator, medium: M.Mediums)
      requires TableHolds(table.arenas) && (forall c :: !HasChunk(table.arenas, c))
      requires forall i :: 0 < i < ARENAS ==> table.arenas[i].kind == EmptyArena
      requires small.Valid() && small.state.pages == map[] && small.state.runs == map[] && medium.Valid()
      requires medium.units == map[]
      requires small.Objects() !! {medium, medium.pool} + medium.repr && table !in small.Objects()
      requires table !in {medium, medium.pool} + medium.repr
      ensures Valid() && this.table == table && this.small == small && this.medium == medium
      ensures smallRepr == small.Objects() && w == Whole(small.state, map[], table.arenas)
      ensures forall pos, len :: !LiveAt(w, pos, len)
    {
      this.table, this.small, this.medium := table, small, medium;
      smallRepr := small.Objects();
      w := Whole(small.state, map[], table.arenas);
    }

    lemma Parts()
      requires Valid()
      ensures Separate() && small.Valid() && medium.Valid() && WholeHolds(w)
      ensures this !in smallRepr && this !in medium.repr && table !in smallRepr && table !in medium.repr
      ensures table as object != this
      ensures medium as object != this && medium.pool as object != this && medium as object != table
      ensures medium.pool as object != table
      ensures smallRepr !! medium.repr && medium !in smallRepr && medium.pool !in smallRepr
      ensures small.Objects() <= smallRepr
      ensures small in smallRepr && small.index in smallRepr && (forall p :: p in small.pools ==> p in smallRepr)
      ensures forall c :: c in small.chunks ==> small.chunks[c] in smallRepr && small.chunks[c].bitmap in smallRepr
      ensures small.state == w.small && medium.units == w.medium && table.arenas == w.table && |w.table| == ARENAS
      ensures small.chunks.Keys == w.small.pages.Keys && medium.chunks.Keys == w.medium.Keys
    {
      H.SameChunks(small.chunks, small.state.pages);
      medium.Components();
      small.AllObjects();
    }

    lemma Constants()
      ensures SHM_NULL == 0 && ARENA_SPAN == 0x1_0000_0000 && ARENAS == 128 && CHUNK_SIZE == 0x100000
      ensures UNITS == 256 && PAGE_SIZE == 4096 && RB_NULL == 0 && ARENA_CHUNKS == 8 && ARENA_UNIT == 0x800000
      ensures S.PAGES == 256 && R.RUN_SIZE == 4096
    {
    }

    lemma Joined()
      requires Separate() && small.Valid() && medium.Valid() && WholeHolds(w)
      requires small.state == w.small && medium.units == w.medium && table.arenas == w.table
      ensures Valid()
    {
    }

    // ----- new chunks -----

    /** new_chunk for runs; 0 if the table is full or the kernel gives no memory. */
    method NewSmallChunk(mapped: bool) returns (c: int)
      requires Valid()
      modifies this`w, this`smallRepr, table, small`chunks, small`state, small.index
      ensures Valid() && SameLive(old(w), w) && fresh(smallRepr - old(smallRepr))
      ensures (c == 0 <==> NoChunk(old(w).table, mapped)) && (c == 0 ==> w == old(w))
      ensures w.table == TableAfter(old(w).table, true, mapped)
      ensures c != 0 ==>
        w.small == old(w).small.(pages := old(w).small.pages[c := {0}]) && c in w.small.pages && c in small.chunks
      ensures S.OneSpare(old(w).small) ==> S.OneSpare(w.small)
    {
      hide *;
      Constants();
      Parts();
      ghost var w0 := w;
      TableOf(w0);
      TableAfterIs(w0.table, mapped);
      c := table.NewChunk(mapped);
      if c == 0 {
        SameAsBefore(w0);
      } else {
        WholeHeap.NewSmallChunk(w0);
        small.InitChunk(c, c / ARENA_SPAN);
        w := w0.(small := small.state, table := table.arenas);
        smallRepr := smallRepr + small.Objects();
      }
      Joined();
    }

    // ----- small blocks -----

    /** A run of class `k` at the root of its pool: the one there, or a new one. */
    method RunFor(k: int, mapped: bool) returns (p: int)
      requires Valid() && 1 <= k < R.RUN_CONFIG_SIZE
      modifies this`w, this`smallRepr, table, smallRepr
      ensures Valid() && SameLive(old(w), w) && fresh(smallRepr - old(smallRepr))
      ensures (p == 0 <==> S.NothingFor(old(w).small, k) && NoChunk(old(w).table, mapped)) && (p == 0 ==> w == old(w))
      ensures small.linked == old(small.linked)
      ensures p != 0 ==>
        (S.KeepsLinks(small.state, p, small.clears) <==> S.KeepsLinks(old(small.state), p, small.clears))
      ensures p != 0 ==> p in small.runs && S.Offered(small.runs[p], k) && small.runs[p].elemsize == R.ELEM_SIZES[k]
      ensures p != 0 ==> k < |small.pools| && small.pools[k].root == p
      ensures p != 0 ==> S.RunReady(old(w).small, w.small, p, k)
      ensures S.OneSpare(old(w).small) ==> S.OneSpare(w.small)
      ensures w.table == TableAfter(old(w).table, S.NothingFor(old(w).small, k), mapped)
    {
      hide *;
      Constants();
      Parts();
      TableAfterIs(w.table, mapped);
      small.PoolRoot(k);
      p := small.pools[k].root;
      SameAsBefore(w);
      ghost var s := w.small;
      if p == 0 {
        var c := small.FindChunk();
        if c == 0 {
          c := NewSmallChunk(mapped);
          if c == 0 {
            return;
          }
          Parts();
          Fits(c);
        }
        ghost var w1 := w;
        p := RunIn(c, k);
        NoRunNoLinks(old(small.state), p, small.clears);
        SameTwice(old(w), w1, w);
        Parts();
      }
      S.ReadyIs(s, w.small, p, k);
    }

    /** new_chunk_run */
    method RunIn(c: int, k: int) returns (p: int)
      requires Valid() && 1 <= k < R.RUN_CONFIG_SIZE == |w.small.members| && w.small.members[k] == {}
      requires c in small.chunks && c in w.small.pages && |w.small.pages[c]| < S.PAGES
      modifies this`w, smallRepr
      ensures Valid() && SameLive(old(w), w) && (S.OneSpare(old(w).small) ==> S.OneSpare(w.small))
      ensures p > 0 && p in small.runs && S.Offered(small.runs[p], k) && small.runs[p].elemsize == R.ELEM_SIZES[k]
      ensures |small.pools| == R.RUN_CONFIG_SIZE && small.pools[k].root == p && small.linked == old(small.linked)
      ensures w.small.runs == old(w).small.runs[p := w.small.runs[p]]
      ensures w.table == old(w).table && p !in old(w).small.runs && !S.KeepsLinks(small.state, p, small.clears)
    {
      hide *;
      Constants();
      Parts();
      ghost var w0 := w;
      small.PoolRoot(k);
      assert small.pools[k] in small.pools;
      p := small.RunInChunk(c, k, small.state);
      RunAdded(w0, small.state, p);
      small.Inside();
      OfferedFacts(small.runs[p], k);
      Single(w0.small, small.state, p, k, small.clears);
      w := w0.(small := small.state);
      Joined();
    }

    lemma Single(s0: S.Small, s: S.Small, p: int, k: int, clears: bool)
      requires 0 <= k < |s0.members| && s.members == s0.members[k := {p}] && p in s.runs && s.runs[p].confIndex == k
      requires p !in s0.runs
      ensures !S.KeepsLinks(s, p, clears)
    {
    }

    lemma NoRunNoLinks(s: S.Small, p: int, clears: bool)
      ensures p !in s.runs ==> !S.KeepsLinks(s, p, clears)
    {
    }

    /** malloc_chunk_run of the run at the root of its pool. */
    method TakeSlot(p: int, k: int) returns (r: int, ghost len: int)
      requires Valid() && 1 <= k < R.RUN_CONFIG_SIZE && p in small.runs && S.Offered(small.runs[p], k)
      requires k < |small.pools| && small.pools[k].root == p
      modifies this`w, smallRepr
      ensures Valid() && OneMore(old(w), w, r, len) && len == old(small.runs[p].elemsize) && r != 0
      ensures w.table == old(w).table && S.CanTake(old(w).small, p) && w.small == S.Take(old(w).small, p)
      ensures S.OneSpare(old(w).small) ==> S.OneSpare(w.small)
      ensures p == r - r % R.RUN_SIZE
      ensures small.linked == if S.KeepsLinks(old(small.state), p, small.clears) then old(small.linked) + {p}
        else old(small.linked)
    {
      hide *;
      Constants();
      Parts();
      ghost var w0 := w;
      OfferedFacts(small.runs[p], k);
      assert small.pools[k] in small.pools;
      small.Inside();
      r := small.MallocChunkRun(p);
      small.Inside();
      Taken(w0, p);
      len := w0.small.runs[p].elemsize;
      w := w0.(small := small.state);
      Joined();
    }

    lemma OfferedFacts(r: R.Run, k: int)
      requires S.Offered(r, k)
      ensures r.confIndex == k && r.used < r.total
    {
    }

    lemma Taken(w: Whole, p: int)
      requires WholeHolds(w) && p in w.small.runs && S.CanTake(w.small, p)
      requires w.small.runs[p].used < w.small.runs[p].total && S.SmallHolds(w.small)
      ensures var s, o := S.Take(w.small, p), w.small.runs[p].free;
        && WholeHolds(w.(small := s)) && OneMore(w, w.(small := s), p + o, w.small.runs[p].elemsize) && p + o != 0
        && (S.OneSpare(w.small) ==> S.OneSpare(s)) && p == p + o - (p + o) % R.RUN_SIZE
    {
      hide *;
      S.TakeHolds(w.small, p);
      S.RunPositive(w.small, p);
      TakeSizes(w.small, p);
      SmallTaken(w, S.Take(w.small, p), p, w.small.runs[p].free, w.small.runs[p].elemsize);
      SlotPage(w.(small := S.Take(w.small, p)), p, w.small.runs[p].free);
    }

    /** The small branch of malloc_arena. */
    method MallocSmall(size: int, mapped: bool) returns (r: int, ghost len: int)
      requires Valid() && 0 < size <= R.CHUNK_SMALL_LIMIT
      modifies this`w, this`smallRepr, table, smallRepr
      ensures Valid() && fresh(smallRepr - old(smallRepr)) && (S.OneSpare(old(w).small) ==> S.OneSpare(w.small))
      ensures r == 0 <==> S.NothingFor(old(w).small, R.FindRunConfig(size)) && NoChunk(old(w).table, mapped)
      ensures r == 0 ==> w == old(w)
      ensures w.table == TableAfter(old(w).table, S.NothingFor(old(w).small, R.FindRunConfig(size)), mapped)
      ensures small.linked == S.LinkedAfter(old(small.state), old(small.linked), r, small.clears)
      ensures r != 0 ==> OneMore(old(w), w, r, len)
      ensures r != 0 ==> len == R.ELEM_SIZES[R.FindRunConfig(size)]
      ensures r != 0 ==> S.RunsFor(old(w).small, w.small, r - r % R.RUN_SIZE, R.FindRunConfig(size))
    {
      hide *;
      ghost var w0 := w;
      var k := R.FindRunConfig(size);
      var run := RunFor(k, mapped);
      r, len := 0, 0;
      if run != 0 {
        Parts();
        ghost var w1 := w;
        r, len := TakeSlot(run, k);
        S.TakenFor(w0.small, w1.small, run, k);
        SameThenMore(w0, w1, w, r, len);
      }
      S.LinkedAtSlot(old(small.state), old(small.linked), r, small.clears);
    }

    // ----- medium and large blocks -----

    /** new_chunk for pages; 0 if the table is full or the kernel gives no memory. */
    method NewMediumChunk(mapped: bool, pages: Memory<C.MediumKey>) returns (c: int)
      requires Valid() && ENODE !in pages && forall p :: 1 <= p < UNITS ==> p in pages
      modifies this`w, table, medium, medium.pool
      ensures Valid() && SameLive(old(w), w) && fresh(medium.repr - old(medium.repr)) && w.small == old(w).small
      ensures (c == 0 <==> NoChunk(old(w).table, mapped)) && w.table == TableAfter(old(w).table, true, mapped)
      ensures c == 0 ==> w == old(w) && medium.repr == old(medium.repr) && medium.chunks == old(medium.chunks)
      ensures c != 0 ==> c in medium.chunks && c in medium.units && medium.chunks[c].maxSize == UNITS - 1
      ensures c != 0 && C.Written(medium.cmp) ==> M.ServesAll(medium.chunks[c])
      ensures old(Exact()) ==> Exact()
    {
      hide *;
      Constants();
      Parts();
      ExactParts();
      ghost var w0 := w;
      TableOf(w0);
      TableAfterIs(w0.table, mapped);
      c := table.NewChunk(mapped);
      if c == 0 {
        SameAsBefore(w0);
      } else {
        WholeHeap.NewMediumChunk(w0, [U.Block(1, UNITS - 1, false)]);
        medium.InitChunk(c, c / ARENA_SPAN, pages);
        w := w0.(medium := medium.units, table := table.arenas);
      }
      Joined();
      ExactParts();
    }

    /** malloc_chunk_medium in chunk `c`. */
    method TakeUnits(c: int, size: nat) returns (r: C.MallocResult, ghost len: int)
      requires Valid() && c in medium.chunks && 0 < size <= (UNITS - 1) * PAGE_SIZE
      modifies this`w, medium, medium.pool, medium.repr
      ensures Valid() && w.small == old(w).small && w.table == old(w).table && fresh(medium.repr - old(medium.repr))
      ensures r.AssertionFailed? ==> w == old(w) && unchanged(medium, medium.pool) && unchanged(medium.repr)
      ensures r.Allocated? <==> old(medium.chunks[c].Serves(C.PagesFor(size)))
      ensures r.Allocated? ==> r.pos != 0 && OneMore(old(w), w, r.pos, len)
      ensures r.Allocated? ==> len % PAGE_SIZE == 0 && len - PAGE_SIZE < size <= len
      ensures old(Exact()) ==> Exact() && (old(medium.chunks[c].maxSize) * PAGE_SIZE >= size ==> r.Allocated?)
    {
      hide *;
      Constants();
      Parts();
      ExactParts();
      ghost var w0 := w;
      medium.PartOf(c);
      ghost var n;
      r, n := medium.Malloc(c, size);
      len := C.PagesFor(size) * PAGE_SIZE;
      if r.Allocated? {
        MediumTaken(w0, c, medium.units[c], n, C.PagesFor(size));
        C.PagesForExact(size);
        WholePages(C.PagesFor(size), size);
        w := w0.(medium := medium.units);
      }
      Joined();
      ExactParts();
    }

    lemma WholePages(n: int, size: nat)
      requires (n - 1) * PAGE_SIZE < size <= n * PAGE_SIZE
      ensures n * PAGE_SIZE % PAGE_SIZE == 0 && n * PAGE_SIZE - PAGE_SIZE < size <= n * PAGE_SIZE
    {
    }

    /** The medium branch of malloc_arena. Position 0 stands for failure. */
    method MallocMedium(size: nat, mapped: bool, pages: Memory<C.MediumKey>) returns (r: C.MallocResult, ghost len: int)
      requires Valid() && 0 < size <= (UNITS - 1) * PAGE_SIZE && ENODE !in pages
      requires forall p :: 1 <= p < UNITS ==> p in pages
      modifies this`w, table, medium, medium.pool, medium.repr
      ensures Valid() && w.small == old(w).small && fresh(medium.repr - old(medium.repr))
      ensures r == C.Allocated(0) <==> NoChunk(old(w).table, mapped) && M.NoneReaches(old(medium.maxes), size)
      ensures w.table == TableAfter(old(w).table, M.NoneReaches(old(medium.maxes), size), mapped)
      ensures r == C.Allocated(0) ==> w == old(w)
      ensures r.AssertionFailed? ==> SameLive(old(w), w)
      ensures r.Allocated? && r.pos != 0 ==> OneMore(old(w), w, r.pos, len)
      ensures r.Allocated? && r.pos != 0 ==> len % PAGE_SIZE == 0 && len - PAGE_SIZE < size <= len
      ensures old(Exact()) ==> Exact() && r.Allocated?
      ensures C.Written(medium.cmp) ==> (r.AssertionFailed? <==> old(medium.Refuses(size)))
      ensures C.Written(medium.cmp) && r.AssertionFailed? ==> w == old(w) && medium.Refuses(size)
    {
      hide *;
      Constants();
      C.PagesForExact(size);
      ghost var w0 := w;
      SameAsBefore(w0);
      len := 0;
      Parts();
      TableAfterIs(w0.table, mapped);
      var c := medium.FindChunk(size);
      medium.MaxesReach(size, c);
      if c == 0 {
        c := NewMediumChunk(mapped, pages);
        if c == 0 {
          return C.Allocated(0), 0;
        }
        Parts();
        if C.Written(medium.cmp) { ServesIt(medium.chunks[c], C.PagesFor(size)); }
      }
      ghost var w1 := w;
      r, len := TakeUnits(c, size);
      if r.Allocated? { SameThenMore(w0, w1, w, r.pos, len); }
    }

    lemma ServesIt(k: C.Chunk, n: C.uint16)
      requires M.ServesAll(k) && 0 < n < UNITS
      ensures k.Serves(n)
    {
    }

    /** The large branch of malloc_arena: an arena of its own, 0 if the table is full or the kernel
        gives no memory. */
    method MallocLarge(size: nat, mapped: bool) returns (r: int, ghost len: int)
      requires Valid() && size > 0
      modifies this`w, table
      ensures Valid() && w.small == old(w).small && w.medium == old(w).medium
      ensures r == 0 ==> w == old(w)
      ensures r != 0 ==> w.table == WithLarge(old(w).table, C.AlignSize(size, CHUNK_SIZE))
      ensures r != 0 ==> OneMore(old(w), w, r, len) && len % CHUNK_SIZE == 0 && len - CHUNK_SIZE < size <= len
      ensures |old(w).table| == ARENAS
      ensures r == 0 <==> !mapped || forall i :: 1 <= i < ARENAS ==> old(w).table[i].kind != EmptyArena
    {
      hide *;
      Constants();
      Parts();
      ghost var w0 := w;
      var asize := C.AlignSize(size, CHUNK_SIZE);
      Aligned(size);
      TableOf(w0);
      var index := table.NewArena(LargeArena, asize, mapped);
      r, len := 0, asize;
      if index != 0 {
        LargeMade(w0, asize);
        WithLargeIs(w0.table, asize);
        r := Pos(index, 0);
        PosOfArena(index);
        w := w0.(table := table.arenas);
      }
      Joined();
    }

    lemma Aligned(size: nat)
      ensures C.AlignSize(size, CHUNK_SIZE) - CHUNK_SIZE < size <= C.AlignSize(size, CHUNK_SIZE)
      ensures C.AlignSize(size, CHUNK_SIZE) % CHUNK_SIZE == 0
    {
      var k := (size + (CHUNK_SIZE - 1)) / CHUNK_SIZE;
      assert C.AlignSize(size, CHUNK_SIZE) == CHUNK_SIZE * k;
    }

    lemma PosOfArena(index: nat)
      ensures Pos(index, 0) == ChunkPos(index, 0) && (index > 0 ==> Pos(index, 0) > 0)
    {
    }

    /** The medium trees are ordered by size, and every cached maximum is the true one. */
    ghost predicate Exact()
      reads medium, medium.repr
    {
      (forall a, b :: medium.cmp(a, b) == C.SizeIndexCompare(a, b)) && M.AllExact(medium.chunks, medium.repr)
    }

    lemma ExactParts()
      ensures Exact() <==>
        (forall a, b :: medium.cmp(a, b) == C.SizeIndexCompare(a, b)) && M.AllExact(medium.chunks, medium.repr)
    {
    }

    // ----- malloc_arena -----

    /** malloc_arena. The block it gives was not held and is as long as asked for, and all blocks
        held before are held as before; position 0 changes nothing. `mapped` says whether the kernel
        gives memory for a new arena, `pages` is what that memory holds. */
    method MallocArena(size: nat, mapped: bool, pages: Memory<C.MediumKey>) returns (r: C.MallocResult, ghost len: int)
      requires Valid() && size > 0 && ENODE !in pages && forall p :: 1 <= p < UNITS ==> p in pages
      modifies this`w, this`smallRepr, table, smallRepr, medium, medium.pool, medium.repr
      ensures Valid() && fresh(smallRepr - old(smallRepr)) && fresh(medium.repr - old(medium.repr))
      ensures r == C.Allocated(0) ==> w == old(w)
      ensures r.AssertionFailed? ==> SameLive(old(w), w)
      ensures r.Allocated? && r.pos != 0 ==> OneMore(old(w), w, r.pos, len) && len >= size && Fitted(size, len)
      ensures r.Allocated? && r.pos != 0 && size <= R.CHUNK_SMALL_LIMIT ==>
        S.RunsFor(old(w).small, w.small, r.pos - r.pos % R.RUN_SIZE, R.FindRunConfig(size))
      ensures size > R.CHUNK_SMALL_LIMIT ==> w.small == old(w).small
      ensures old(Exact()) ==> Exact() && r.Allocated?
      ensures C.Written(medium.cmp) ==>
        (r.AssertionFailed? <==> R.CHUNK_SMALL_LIMIT < size <= (UNITS - 1) * PAGE_SIZE && old(medium.Refuses(size)))
      ensures S.OneSpare(old(w).small) ==> S.OneSpare(w.small)
      ensures size <= R.CHUNK_SMALL_LIMIT ==>
        r.Allocated? && small.linked == S.LinkedAfter(old(small.state), old(small.linked), r.pos, small.clears)
      ensures size > R.CHUNK_SMALL_LIMIT ==> small.linked == old(small.linked)
      ensures |old(w).table| == ARENAS && w.table == TableFor(old(w), old(medium.maxes), size, mapped)
      ensures r == C.Allocated(0) <==> NoneLeft(old(w), old(medium.maxes), size, mapped)
      ensures r == C.Allocated(0) <==>
        && (size <= R.CHUNK_SMALL_LIMIT ==> S.NothingFor(old(w).small, R.FindRunConfig(size)))
        && (R.CHUNK_SMALL_LIMIT < size <= (UNITS - 1) * PAGE_SIZE ==> M.NoneReaches(old(medium.maxes), size))
        && (size <= (UNITS - 1) * PAGE_SIZE ==>
          forall j :: 1 <= j < ARENA_CHUNKS ==> old(w).table[0].chunks[j] != SHM_NULL)
        && (!mapped || forall i :: 1 <= i < ARENAS ==> old(w).table[i].kind != EmptyArena)
      ensures C.Written(medium.cmp) && r.AssertionFailed? ==> medium.Refuses(size)
    {
      hide *;
      Constants();
      Parts();
      TableForIs(w, medium.maxes, size, mapped);
      TableOf(w);
      RowOf(w.table, 0);
      NewChunkExact(w.table);
      SmallLimit();
      if size <= R.CHUNK_SMALL_LIMIT {
        var pos;
        pos, len := MallocSmall(size, mapped);
        r := C.Allocated(pos);
      } else if size <= (UNITS - 1) * PAGE_SIZE {
        r, len := MallocMedium(size, mapped, pages);
      } else {
        var pos;
        pos, len := MallocLarge(size, mapped);
        r := C.Allocated(pos);
      }
      FittedIs(size, len);
    }

    lemma SmallLimit()
      ensures 0 < R.CHUNK_SMALL_LIMIT < (UNITS - 1) * PAGE_SIZE
    {
    }

    // ----- free_arena -----

    /** A block is held at this position. */
    ghost predicate Held(index: nat, offset: nat)
      reads this
    {
      exists len :: LiveAt(w, Pos(index, offset), len)
    }

    lemma HeldIs(index: nat, offset: nat)
      ensures Held(index, offset) <==> exists len :: LiveAt(w, Pos(index, offset), len)
    {
    }

    /** The position is in a full run that still has links of its time in a pool. */
    ghost predicate InLinked(index: nat, offset: nat)
      reads small
    {
      Pos(index, offset) - Pos(index, offset) % R.RUN_SIZE in small.linked
    }

    lemma LinkedPage(index: nat, offset: nat)
      ensures InLinked(index, offset) <==> Pos(index, offset) - Pos(index, offset) % R.RUN_SIZE in small.linked
    {
    }

    /** The position is in a page that is marked as used by a run. */
    ghost predicate InRunPage(index: nat, offset: nat)
      reads table, small
    {
      && index < |table.arenas| && offset < table.arenas[index].size
      && offset / CHUNK_SIZE < |table.arenas[index].chunks|
      && var c := table.arenas[index].chunks[offset / CHUNK_SIZE];
      c in small.chunks && small.Used(c, offset % CHUNK_SIZE)
    }

    /** What the code does not check: the position is not in the context's own first chunk, and in a
        used page of a chunk of runs it is that of a block that is held, in a run without links. */
    ghost predicate MayFree(index: nat, offset: nat)
      reads this, table, small
    {
      && (index == 0 ==> offset >= CHUNK_SIZE) && !InLinked(index, offset)
      && (InRunPage(index, offset) ==> Held(index, offset))
    }

    /** Whoever holds a block may free it, but for the blocks in runs that keep links; if the pools
        clear the links, whoever holds a block may free it. */
    lemma HeldMayFree(index: nat, offset: nat, len: int)
      requires Valid() && offset < ARENA_SPAN && LiveAt(w, Pos(index, offset), len)
      ensures Held(index, offset) && (MayFree(index, offset) <==> !InLinked(index, offset))
      ensures small.clears ==> MayFree(index, offset)
    {
      hide LiveAt, S.SmallHolds, M.Mediums.Valid, H.PoolsMatch, H.ChunksMatch, H.IndexMatch;
      if index == 0 {
        NotLargeAtZero(w, offset, len);
        var c := ChunkOf(w, Pos(0, offset), len);
        ChunkAtPos(w.table, 0, offset, c, len);
        PositiveChunkAt(w.table, c, Pos(0, offset), len);
      }
    }

    lemma NotLargeAtZero(w: Whole, offset: nat, len: int)
      requires offset < ARENA_SPAN
      ensures !exists i :: LargeLive(w, i, Pos(0, offset), len)
    {
    }

    lemma PositiveChunkAt(t: seq<Arena>, c: int, pos: int, len: int)
      requires TableHolds(t) && InChunk(t, c, pos, len)
      ensures c > 0
    {
      var i, j :| ChunkIn(t, i, j, c);
      ChunkWhere(t, i, j, c);
    }

    /** free_arena */
    method FreeArena(index: nat, offset: nat)
      requires Valid() && offset < ARENA_SPAN && MayFree(index, offset)
      modifies this`w, table, smallRepr, medium, medium.pool, medium.repr
      ensures Valid() && Freed(old(w), w, index, offset)
      ensures (old(Exact()) ==> Exact()) && (S.OneSpare(old(w).small) ==> S.OneSpare(w.small))
      ensures small.linked == old(small.linked) && medium.repr == old(medium.repr)
      ensures Shrinks(old(w), w, index, offset)
    {
      hide *;
      Constants();
      Parts();
      TableOf(w);
      SameAsBefore(w);
      ShrinksIs(w, index, offset);
      IsLargeRow(w.table, index);
      if index < ARENAS { RowOf(w.table, index); }
      if index >= ARENAS || table.arenas[index].kind == EmptyArena {
        NothingThere(w, index, offset);
        return;
      }
      if table.arenas[index].kind == LargeArena {
        FreeLarge(index, offset);
      } else {
        EntryAt(index, offset);
        var c := table.GetArenaChunk(index, offset);
        if c == SHM_NULL {
          NothingThere(w, index, offset);
        } else {
          var chunkOffset := offset - c % ARENA_SPAN;
          NotReserved(index, offset);
          ChunkThere(w, index, offset, c);
          if c in small.chunks { MayFreeThere(index, offset, c); }
          ghost var w0 := w;
          if c in small.chunks {
            FreeRunBlock(index, offset / CHUNK_SIZE, c, chunkOffset);
          } else {
            FreePageBlock(index, offset / CHUNK_SIZE, c, chunkOffset);
          }
          IsFreedAt(w0, w, index, offset);
        }
      }
    }

    lemma RowOf(t: seq<Arena>, i: nat)
      requires TableHolds(t) && i < |t|
      ensures |t[i].chunks| == ARENA_CHUNKS && (t[i].kind != LargeArena ==> t[i].size <= ARENA_UNIT)
      ensures (t[i].kind == EmptyArena ==> t[i].size == 0)
    {
      assert ArenaHolds(t[i], i);
    }

    /** get_arena_chunk */
    lemma EntryAt(index: nat, offset: nat)
      requires index < |table.arenas| && |table.arenas[index].chunks| == ARENA_CHUNKS
      requires table.arenas[index].size <= ARENA_UNIT
      ensures table.GetArenaChunk(index, offset) ==
        if offset >= table.arenas[index].size then SHM_NULL else table.arenas[index].chunks[offset / CHUNK_SIZE]
    {
    }

    lemma NothingThere(w: Whole, index: nat, offset: nat)
      requires WholeHolds(w) && offset < ARENA_SPAN && (index < ARENAS ==> w.table[index].kind != LargeArena)
      requires index < ARENAS && offset < w.table[index].size && offset / CHUNK_SIZE < ARENA_CHUNKS ==>
        w.table[index].chunks[offset / CHUNK_SIZE] == SHM_NULL
      ensures Freed(w, w, index, offset) && forall len :: !LiveAt(w, Pos(index, offset), len)
    {
      NoChunkNoBlock(w, index, offset);
      hide LiveAt;
      FreedNone(w, w, Pos(index, offset));
    }

    /** Any offset in a large arena may be freed. */
    lemma LargeMayFree(index: nat, offset: nat)
      requires Valid() && offset < ARENA_SPAN && LargeRow(w.table, index)
      ensures MayFree(index, offset)
    {
      hide *;
      Constants();
      Parts();
      TableOf(w);
      small.LinkedRuns();
      small.Inside();
      LargeChunks(w.table, index);
      var q := Pos(index, offset) - Pos(index, offset) % R.RUN_SIZE;
      if q in small.linked { RunArena(w, q, index, offset); }
      if 0 in small.chunks { S.ChunkFacts(w.small, 0); }
      LargeNotInRuns(index, offset);
    }

    lemma LargeNotInRuns(index: nat, offset: nat)
      requires index < |table.arenas| && index > 0 && table.arenas[index].chunks == NO_CHUNKS && 0 !in small.chunks
      requires Pos(index, offset) - Pos(index, offset) % R.RUN_SIZE !in small.linked
      ensures MayFree(index, offset)
    {
    }

    lemma LargeChunks(t: seq<Arena>, index: nat)
      requires TableHolds(t) && LargeRow(t, index)
      ensures 0 < index < |t| && t[index].chunks == NO_CHUNKS && t[index].size > 0 && t[index].kind == LargeArena
    {
      assert ArenaHolds(t[index], index);
    }

    lemma NotReserved(index: nat, offset: nat)
      requires MayFree(index, offset)
      ensures (index == 0 ==> offset >= CHUNK_SIZE) && !InLinked(index, offset)
    {
    }

    lemma MayFreeThere(index: nat, offset: nat, c: int)
      requires WholeHolds(w) && small.state == w.small && c in small.chunks && c in w.small.pages && c % R.RUN_SIZE == 0
      requires MayFree(index, offset) && index < |table.arenas| && offset < table.arenas[index].size
      requires offset / CHUNK_SIZE < |table.arenas[index].chunks|
      requires c == table.arenas[index].chunks[offset / CHUNK_SIZE] && c + offset % CHUNK_SIZE == Pos(index, offset)
      ensures small.Legal(c, offset % CHUNK_SIZE)
    {
      hide WholeHolds, LiveAt, S.Block;
      var o := offset % CHUNK_SIZE;
      PageOfPos(c, o);
      if small.Used(c, o) {
        assert InRunPage(index, offset);
        var len :| LiveAt(w, Pos(index, offset), len);
        SmallBlockThere(w, c, o, len);
      }
    }

    lemma PageOfPos(c: int, o: nat)
      requires c % R.RUN_SIZE == 0
      ensures c + o - (c + o) % R.RUN_SIZE == S.PagePos(c, o / R.RUN_SIZE)
    {
    }

    lemma ChunkThere(w: Whole, index: nat, offset: nat, c: int)
      requires WholeHolds(w) && index < ARENAS && offset < w.table[index].size && w.table[index].size <= ARENA_UNIT
      requires |w.table[index].chunks| == ARENA_CHUNKS
      requires c == w.table[index].chunks[offset / CHUNK_SIZE] && c != SHM_NULL && (index == 0 ==> offset >= CHUNK_SIZE)
      ensures ChunkIn(w.table, index, offset / CHUNK_SIZE, c) && offset - c % ARENA_SPAN == offset % CHUNK_SIZE
      ensures 0 <= offset % CHUNK_SIZE < CHUNK_SIZE
      ensures c + offset % CHUNK_SIZE == Pos(index, offset) && (c in w.small.pages || c in w.medium)
      ensures c % R.RUN_SIZE == 0
    {
      assert ChunkIn(w.table, index, offset / CHUNK_SIZE, c);
      ChunkWhere(w.table, index, offset / CHUNK_SIZE, c);
      assert HasChunk(w.table, c);
    }

    /** free_chunk and check_delete_chunk in a chunk of runs. */
    method FreeRunBlock(i: nat, j: nat, c: int, offset: nat)
      requires Valid() && c in small.chunks && small.Legal(c, offset) && ChunkIn(w.table, i, j, c)
      requires offset < CHUNK_SIZE
      modifies this`w, table, smallRepr
      ensures Valid() && FreedAt(old(w), w, c + offset) && (S.OneSpare(old(w).small) ==> S.OneSpare(w.small))
      ensures small.linked == old(small.linked) && ChunkOr(old(w), w, i, j, c + offset)
    {
      hide *;
      Constants();
      Parts();
      TableOf(w);
      ghost var w0 := w;
      ghost var used := small.Used(c, offset);
      InBounds(w0.table, i, j, c);
      ChunkWhere(w.table, i, j, c);
      small.UsedPage(c, offset);
      var check := small.FreeSmall(c, offset);
      if check {
        table.CheckDeleteChunk(i, j);
      }
      if !used {
        NotThere(w0, c, offset);
        AsChunkOr(w0, w, i, j, c + offset);
      } else {
        small.Inside();
        w := RunFreed(w0, i, j, c, offset, check, small.state);
      }
      Joined();
    }

    lemma RunFreed(w0: Whole, i: nat, j: nat, c: int, offset: nat, check: bool, s: S.Small) returns (w1: Whole)
      requires WholeHolds(w0) && c in w0.small.pages && ChunkIn(w0.table, i, j, c) && offset < CHUNK_SIZE
      requires offset / R.RUN_SIZE in w0.small.pages[c]
      requires S.FreedTo(w0.small, s, c, offset / R.RUN_SIZE, offset % R.RUN_SIZE, check)
      requires S.RunsAfter(w0.small, s, S.PagePos(c, offset / R.RUN_SIZE), offset % R.RUN_SIZE)
      requires check <==> forall p :: p in s.runs ==> !S.OnChunk(p, c)
      ensures WholeHolds(w1) && w1.small == s && w1.medium == w0.medium
      ensures w1.table == (if check then WithoutChunk(w0.table, i, j) else w0.table)
      ensures FreedAt(w0, w1, c + offset) && ChunkOr(w0, w1, i, j, c + offset)
    {
      hide *;
      Constants();
      TableOf(w0);
      InBounds(w0.table, i, j, c);
      AtChunk(w0, i, j, c);
      var s1, len := SmallFreed(w0, s, c, offset / R.RUN_SIZE, offset % R.RUN_SIZE, check);
      w1 := w0.(small := s1);
      PageOffset(c, offset);
      if check {
        RunsOnly(w0, w1, c);
        ChunkGone(w1, i, j, c);
        var w2 := Whole(s, w0.medium, WithoutChunk(w0.table, i, j));
        LessThenSame(w0, w1, w2, c + offset, len);
        w1 := w2;
      }
      FreedOne(w0, w1, c + offset, len);
      OneHeld(w0, w1, c + offset, len);
      RunChunkLeft(w0, w1, i, j, c, offset, check);
      AsChunkOr(w0, w1, i, j, c + offset);
    }

    lemma OneHeld(w0: Whole, w1: Whole, pos: int, len: int)
      requires OneMore(w1, w0, pos, len)
      ensures LiveAt(w0, pos, len)
    {
      hide LiveAt;
    }

    lemma RunsOnly(w0: Whole, w: Whole, c: int)
      requires WholeHolds(w0) && c in w0.small.pages && w.medium == w0.medium
      ensures c !in w.medium && w.medium - {c} == w.medium
    {
    }

    /** free_chunk and check_delete_chunk in a chunk of pages. */
    method FreePageBlock(i: nat, j: nat, c: int, offset: nat)
      requires Valid() && c in medium.chunks && ChunkIn(w.table, i, j, c) && offset < CHUNK_SIZE
      modifies this`w, table, medium, medium.pool, medium.repr
      ensures Valid() && FreedAt(old(w), w, c + offset) && w.small == old(w).small && (old(Exact()) ==> Exact())
      ensures medium.repr == old(medium.repr) && ChunkOr(old(w), w, i, j, c + offset)
    {
      hide *;
      Constants();
      Parts();
      ExactParts();
      TableOf(w);
      InBounds(w.table, i, j, c);
      PageNumber(offset);
      ChunkWhere(w.table, i, j, c);
      medium.PartOf(c);
      ghost var w0 := w;
      var check := medium.Free(c, offset);
      if check {
        table.CheckDeleteChunk(i, j);
      }
      w := MediumFreed(w0, i, j, c, offset, check, medium.units);
      Joined();
      ExactParts();
    }

    lemma MediumFreed(w0: Whole, i: nat, j: nat, c: int, offset: nat, check: bool, units: map<int, seq<U.Block>>)
      returns (w1: Whole)
      requires WholeHolds(w0) && c in w0.medium && ChunkIn(w0.table, i, j, c) && offset < CHUNK_SIZE
      requires !M.StartsAt(w0.medium[c], offset) ==> !check && units == w0.medium
      requires check <==> M.StartsAt(w0.medium[c], offset) && U.Live(w0.medium[c]) - {C.PageOf(offset)} == map[]
      requires check ==> units == w0.medium - {c}
      requires !check ==> c in units && units == w0.medium[c := units[c]]
      requires !check && M.StartsAt(w0.medium[c], offset) ==>
        U.Tiles(units[c], 1, UNITS) && U.Live(units[c]) == U.Live(w0.medium[c]) - {C.PageOf(offset)}
      ensures WholeHolds(w1) && w1.small == w0.small && w1.medium == units
      ensures w1.table == (if check then WithoutChunk(w0.table, i, j) else w0.table)
      ensures FreedAt(w0, w1, c + offset) && ChunkOr(w0, w1, i, j, c + offset)
    {
      hide *;
      Constants();
      AtChunk(w0, i, j, c);
      var n := C.PageOf(offset);
      PageNumber(offset);
      UnitStarts(w0.medium[c], offset);
      if offset % PAGE_SIZE != 0 || n !in U.Live(w0.medium[c]) {
        NoUnitThere(w0, c, offset);
        w1 := w0;
      } else if check {
        w1 := LastFreed(w0, i, j, c, n);
        FreedOne(w0, w1, c + offset, U.Live(w0.medium[c])[n] * PAGE_SIZE);
        PageChunkLeft(w0, w1, i, j, c, n, check);
        UnitHeld(w0, c, n);
      } else {
        MediumGiven(w0, c, units[c], n);
        w1 := w0.(medium := units);
        FreedOne(w0, w1, c + offset, U.Live(w0.medium[c])[n] * PAGE_SIZE);
        PageChunkLeft(w0, w1, i, j, c, n, check);
        UnitHeld(w0, c, n);
      }
      AsChunkOr(w0, w1, i, j, c + offset);
    }

    lemma AtChunk(w: Whole, i: nat, j: nat, c: int)
      requires WholeHolds(w) && ChunkIn(w.table, i, j, c)
      ensures c == ChunkPos(i, j)
    {
      ChunkWhere(w.table, i, j, c);
    }

    lemma InBounds(t: seq<Arena>, i: nat, j: nat, c: int)
      requires ChunkIn(t, i, j, c)
      ensures i < |t| && j < |t[i].chunks| && t[i].chunks[j] == c
    {
    }

    /** The last block of a chunk of pages, and the chunk with it. */
    lemma LastFreed(w0: Whole, i: nat, j: nat, c: int, n: int) returns (w1: Whole)
      requires WholeHolds(w0) && c in w0.medium && ChunkIn(w0.table, i, j, c)
      requires n in U.Live(w0.medium[c]) && U.Live(w0.medium[c]) - {n} == map[]
      ensures WholeHolds(w1) && w1.small == w0.small && w1.medium == w0.medium - {c}
      ensures w1.table == WithoutChunk(w0.table, i, j)
      ensures OneMore(w1, w0, c + n * PAGE_SIZE, U.Live(w0.medium[c])[n] * PAGE_SIZE)
    {
      hide *;
      InBounds(w0.table, i, j, c);
      var u := [U.Block(1, UNITS - 1, false)];
      FreeUnit();
      var w2 := w0.(medium := w0.medium[c := u]);
      MediumGiven(w0, c, u, n);
      PagesOnly(w0, c, u);
      ChunkGone(w2, i, j, c);
      w1 := Whole(w0.small, w0.medium - {c}, WithoutChunk(w0.table, i, j));
      var r, len := c + n * PAGE_SIZE, U.Live(w0.medium[c])[n] * PAGE_SIZE;
      LessThenSame(w0, w2, w1, r, len);
    }

    lemma PageNumber(offset: nat)
      requires offset < CHUNK_SIZE
      ensures C.PageOf(offset) == offset / PAGE_SIZE
      ensures (offset % PAGE_SIZE == 0 ==> C.PageOf(offset) * PAGE_SIZE == offset)
    {
    }

    lemma UnitStarts(u: seq<U.Block>, offset: uint32)
      ensures M.StartsAt(u, offset) <==> offset % PAGE_SIZE == 0 && C.PageOf(offset) in U.Live(u)
    {
    }

    lemma FreeUnit()
      ensures U.Tiles([U.Block(1, UNITS - 1, false)], 1, UNITS) && U.Live([U.Block(1, UNITS - 1, false)]) == map[]
    {
      U.OneBlockViews(U.Block(1, UNITS - 1, false));
    }

    lemma PagesOnly(w: Whole, c: int, u: seq<U.Block>)
      requires WholeHolds(w) && c in w.medium
      ensures c !in w.small.pages && w.small.(pages := w.small.pages - {c}) == w.small
      ensures w.medium[c := u] - {c} == w.medium - {c}
    {
      assert w.small.pages - {c} == w.small.pages;
    }

    lemma NoUnitThere(w: Whole, c: int, offset: nat)
      requires WholeHolds(w) && c in w.medium && offset < CHUNK_SIZE
      requires !(offset % PAGE_SIZE == 0 && offset / PAGE_SIZE in U.Live(w.medium[c]))
      ensures var pos := c + offset; FreedAt(w, w, pos) && forall len :: !LiveAt(w, pos, len)
    {
      hide *;
      var pos := c + offset;
      forall len ensures !LiveAt(w, pos, len) {
        if LiveAt(w, pos, len) { MediumBlockThere(w, c, offset, len); }
      }
      SameAsBefore(w);
      FreedNone(w, w, pos);
    }

    lemma PageOffset(c: int, offset: nat)
      ensures S.PagePos(c, offset / R.RUN_SIZE) + offset % R.RUN_SIZE == c + offset
    {
    }

    lemma NotThere(w: Whole, c: int, offset: nat)
      requires WholeHolds(w) && c in w.small.pages && offset < CHUNK_SIZE && offset / R.RUN_SIZE !in w.small.pages[c]
      ensures var pos := c + offset; FreedAt(w, w, pos) && forall len :: !LiveAt(w, pos, len)
    {
      hide *;
      var pos := c + offset;
      forall len ensures !LiveAt(w, pos, len) {
        if LiveAt(w, pos, len) { SmallBlockThere(w, c, offset, len); }
      }
      SameAsBefore(w);
      FreedNone(w, w, pos);
    }

    /** delete_arena of a large arena, whatever the offset. */
    method FreeLarge(index: nat, offset: nat)
      requires Valid() && index < ARENAS && table.arenas[index].kind == LargeArena
      modifies this`w, table
      ensures Valid() && Freed(old(w), w, index, offset)
      ensures w == old(w).(table := old(w).table[index := CLEARED])
    {
      hide *;
      Constants();
      Parts();
      ghost var w0 := w;
      table.DeleteArena(index);
      LargeGone(w0, index);
      PosOfArena(index);
      w := w0.(table := table.arenas);
      Joined();
      IsFreed(w0, w, index, offset);
    }

    // ----- writes -----

    /** A user writes the bytes `from` to `to` of a block it holds. `word` is what the first word of the
        block may hold then, where a free slot has its link, and `recs` what the pages the bytes lie in
        may hold, where a free unit has its node. No bookkeeping of any layer changes. */
    method UserWrite(index: nat, offset: nat, from: nat, to: nat, word: int, recs: int -> NodeRec<C.MediumKey>)
      requires Valid() && offset < ARENA_SPAN && from < to
      requires exists len :: to <= len && LiveAt(w, Pos(index, offset), len)
      modifies this`w, small`runs, small`state, medium.repr
      ensures Valid() && SameLive(old(w), w) && w.table == old(w).table && w.medium == old(w).medium
      ensures (old(Exact()) ==> Exact()) && (S.OneSpare(old(w).small) ==> S.OneSpare(w.small))
      ensures small.linked == old(small.linked) && medium.repr == old(medium.repr) && medium.maxes == old(medium.maxes)
    {
      hide *;
      Constants();
      Parts();
      medium.Components();
      TableOf(w);
      SameAsBefore(w);
      ghost var pos := Pos(index, offset);
      ghost var len :| to <= len && LiveAt(w, pos, len);
      var c := WriteChunk(index, offset, len);
      if c != 0 {
        var o := offset % CHUNK_SIZE;
        if c in small.chunks {
          SmallBlockThere(w, c, o, len);
          if from < R.RUN_LINK {
            WriteSlot(S.PagePos(c, o / R.RUN_SIZE), o % R.RUN_SIZE, word);
          }
        } else {
          MediumBlockThere(w, c, o, len);
          WriteUnit(c, o, from, to, recs);
        }
      }
    }

    /** The chunk a block lies in, 0 for a large one. */
    method WriteChunk(index: nat, offset: nat, ghost len: int) returns (c: int)
      requires Valid() && offset < ARENA_SPAN && LiveAt(w, Pos(index, offset), len)
      ensures c in small.chunks ==> c in w.small.pages
      ensures c == 0 || c in small.chunks || (c in medium.chunks && c in w.medium)
      ensures c != 0 ==> Pos(index, offset) == c + offset % CHUNK_SIZE
    {
      hide *;
      Constants();
      Parts();
      TableOf(w);
      HeldIndex(w, index, offset, len);
      RowOf(w.table, index);
      if table.arenas[index].kind == LargeArena {
        return 0;
      }
      EntryAt(index, offset);
      c := table.GetArenaChunk(index, offset);
      HeldMayFree(index, offset, len);
      HeldEntry(w, index, offset, len);
      ChunkThere(w, index, offset, c);
    }

    /** What is held outside the large arenas is in a chunk, and not in the context's own. */
    lemma HeldEntry(w: Whole, index: nat, offset: nat, len: int)
      requires WholeHolds(w) && index < ARENAS && offset < ARENA_SPAN && LiveAt(w, Pos(index, offset), len)
      requires w.table[index].kind != LargeArena
      ensures offset < w.table[index].size && offset / CHUNK_SIZE < |w.table[index].chunks|
      ensures w.table[index].chunks[offset / CHUNK_SIZE] != SHM_NULL && (index == 0 ==> offset >= CHUNK_SIZE)
    {
      hide *;
      Constants();
      TableOf(w);
      RowOf(w.table, index);
      NotLarge(w, index, offset, len);
      var c := ChunkOf(w, Pos(index, offset), len);
      ChunkAtPos(w.table, index, offset, c, len);
      PositiveChunkAt(w.table, c, Pos(index, offset), len);
      AtZero(index, offset);
    }

    lemma AtZero(index: nat, offset: nat)
      ensures index == 0 && offset < CHUNK_SIZE ==> ChunkPos(index, offset / CHUNK_SIZE) == 0
    {
    }

    /** Any byte range of a small block. */
    method WriteSlot(p: int, o: int, word: int)
      requires Valid() && S.Block(w.small, p, o)
      modifies this`w, small`runs, small`state
      ensures Valid() && SameLive(old(w), w) && w.table == old(w).table && w.medium == old(w).medium
      ensures S.OneSpare(old(w).small) ==> S.OneSpare(w.small)
    {
      hide *;
      Parts();
      ghost var w0 := w;
      small.UserWrite(p, o, word);
      small.Inside();
      SlotWritten(w0, small.state, p, o, word);
      w := w0.(small := small.state);
      Joined();
    }

    lemma SlotWritten(w: Whole, s: S.Small, p: int, o: int, word: int)
      requires WholeHolds(w) && S.SmallHolds(s) && p in w.small.runs && s == S.Written(w.small, p, o, word)
      requires forall q, u :: S.Block(s, q, u) <==> S.Block(w.small, q, u)
      ensures WholeHolds(w.(small := s)) && SameLive(w, w.(small := s))
    {
      hide S.SmallHolds, WholeHolds, SameLive, S.Block, S.Written;
      S.WrittenSizes(w.small, p, o, word);
      BlocksRun(w, s);
      SmallStep(w, s);
    }

    lemma BlocksRun(w: Whole, s: S.Small)
      requires s.runs.Keys == w.small.runs.Keys
      requires forall q :: q in w.small.runs ==> s.runs[q].elemsize == w.small.runs[q].elemsize
      ensures SameSizes(w.small, s)
    {
    }

    /** Any byte range of a medium block. */
    method WriteUnit(c: int, o: nat, from: nat, to: nat, recs: int -> NodeRec<C.MediumKey>)
      requires Valid() && c in medium.chunks && c in w.medium && o % PAGE_SIZE == 0
      requires o / PAGE_SIZE in U.Live(w.medium[c])
      requires from < to <= U.Live(w.medium[c])[o / PAGE_SIZE] * PAGE_SIZE
      modifies medium.repr
      ensures Valid() && (old(Exact()) ==> Exact()) && medium.maxes == old(medium.maxes)
    {
      hide *;
      Constants();
      Parts();
      ExactParts();
      medium.PartOf(c);
      medium.Components();
      var a, b := (o + from) / PAGE_SIZE, (o + to - 1) / PAGE_SIZE + 1;
      medium.Owned(c, o / PAGE_SIZE);
      PageRange(o, from, to, U.Live(w.medium[c])[o / PAGE_SIZE]);
      medium.UserWrite(c, a, b, recs);
      Joined();
      ExactParts();
    }

    lemma PageRange(o: nat, from: nat, to: nat, k: int)
      requires o % PAGE_SIZE == 0 && from < to <= k * PAGE_SIZE
      ensures o / PAGE_SIZE <= (o + from) / PAGE_SIZE <= (o + to - 1) / PAGE_SIZE < o / PAGE_SIZE + k
    {
    }

    // ----- size queries -----

    /** check_arena gives the true length of a block here: in a large arena, or in a chunk of runs
        that is the first one of its arena. */
    ghost predicate Answered(index: nat, offset: nat)
      reads table, small
    {
      index < |table.arenas|
      && var a := table.arenas[index];
        a.kind == LargeArena || (offset < CHUNK_SIZE && 0 < |a.chunks| && a.chunks[0] in small.chunks)
    }

    /** check_arena, which passes on the offset in the arena where the offset in the chunk is meant. For
        a block that is held the answer is its length exactly where `Answered`, and 0 everywhere else;
        in a large arena every offset gets the length. Where nothing is held the answer is 0. `header`
        is what a chunk has where a run has its slot size. */
    method CheckArena(index: nat, offset: nat, header: nat) returns (r: int)
      requires Valid() && offset < ARENA_SPAN && (index == 0 ==> offset >= CHUNK_SIZE)
      ensures forall len :: LiveAt(w, Pos(index, offset), len) ==> r == if Answered(index, offset) then len else 0
      ensures forall len :: LiveAt(w, Pos(index, offset), len) ==>
        && index < |w.table| && 0 < |w.table[index].chunks|
        && var known := w.table[index].kind == LargeArena
            || (offset < CHUNK_SIZE && w.table[index].chunks[0] in w.small.pages);
          r == if known then len else 0
      ensures LargeRow(w.table, index) ==> r == w.table[index].size
      ensures !LargeRow(w.table, index) && !InRunPage(index, offset) && !Held(index, offset) ==> r == 0
    {
      hide *;
      Constants();
      Parts();
      TableOf(w);
      IsLargeRow(w.table, index);
      if index < ARENAS {
        RowOf(w.table, index);
        AnsweredIs(index, offset);
      }
      r := 0;
      if index >= ARENAS || table.arenas[index].kind == EmptyArena {
        NoChunkNoBlock(w, index, offset);
        return;
      }
      if table.arenas[index].kind == LargeArena {
        r := table.arenas[index].size;
        ghost var pos := Pos(index, offset);
        forall len | LiveAt(w, pos, len) ensures r == len && Answered(index, offset) {
          LargeBlockThere(w, index, offset, len);
          LargeAnswered(index, offset);
        }
        return;
      }
      EntryAt(index, offset);
      var c := table.GetArenaChunk(index, offset);
      if c == SHM_NULL {
        NoChunkNoBlock(w, index, offset);
        return;
      }
      ChunkThere(w, index, offset, c);
      if c in small.chunks {
        r := small.CheckSmall(c, offset, header);
        S.ChunkFacts(w.small, c);
        NotHeld(index, offset, c, r);
      } else {
        r := medium.CheckMedium(c, offset);
      }
      ghost var pos := Pos(index, offset);
      forall len | LiveAt(w, pos, len) ensures r == if Answered(index, offset) then len else 0 {
        ChunkAnswered(index, offset, c, len, r);
      }
    }

    lemma AnsweredIs(index: nat, offset: nat)
      requires index < |table.arenas| && 0 < |table.arenas[index].chunks| && small.chunks.Keys == w.small.pages.Keys
      ensures Answered(index, offset) <==>
        (table.arenas[index].kind == LargeArena
         || (offset < CHUNK_SIZE && table.arenas[index].chunks[0] in w.small.pages))
    {
    }

    lemma NotHeld(index: nat, offset: nat, c: int, r: int)
      requires index < |table.arenas| && offset < table.arenas[index].size
      requires offset / CHUNK_SIZE < |table.arenas[index].chunks|
      requires c == table.arenas[index].chunks[offset / CHUNK_SIZE] && c in small.chunks && c in small.state.pages
      requires 0 in small.state.pages[c]
      requires offset >= R.RUN_SIZE && !small.Used(c, offset) ==> r == 0
      ensures !InRunPage(index, offset) && !Held(index, offset) ==> r == 0
    {
      hide LiveAt;
    }

    lemma HeldPositive(w: Whole, pos: int, len: int)
      requires WholeHolds(w) && LiveAt(w, pos, len)
      ensures len > 0
    {
      hide WholeHolds, SmallLive, MediumLive, LargeLive, InChunk;
      if exists i :: LargeLive(w, i, pos, len) {
        var i :| LargeLive(w, i, pos, len);
        LargePositive(w, i, pos, len);
      } else {
        var c := ChunkOf(w, pos, len);
        InChunkBounds(w.table, c, pos, len);
      }
    }

    lemma LargeAnswered(index: nat, offset: nat)
      requires index < |table.arenas| && table.arenas[index].kind == LargeArena
      ensures Answered(index, offset)
    {
    }

    lemma ChunkAnswered(index: nat, offset: nat, c: int, len: int, r: int)
      requires Valid() && index < ARENAS && table.arenas[index].kind != LargeArena
      requires |table.arenas[index].chunks| == ARENA_CHUNKS && offset < ARENA_UNIT
      requires c == table.arenas[index].chunks[offset / CHUNK_SIZE] && ChunkIn(w.table, index, offset / CHUNK_SIZE, c)
      requires c + offset % CHUNK_SIZE == Pos(index, offset) && LiveAt(w, Pos(index, offset), len)
      requires var q := S.PagePos(c, offset / R.RUN_SIZE);
        c in small.chunks && offset >= R.RUN_SIZE ==>
          r == if small.Used(c, offset) && q in small.runs then small.runs[q].elemsize else 0
      requires c !in small.chunks ==> r == 0
      ensures r == if Answered(index, offset) then len else 0
    {
      hide WholeHolds, LiveAt, H.Allocator.Valid, M.Mediums.Valid, ChunkIn, Pos, S.Block;
      Parts();
      small.Inside();
      small.UsedPage(c, offset);
      var j := offset / CHUNK_SIZE;
      if c in small.chunks && j == 0 {
        SmallBlockThere(w, c, offset, len);
        InRuns(S.PagePos(c, offset / R.RUN_SIZE), offset % R.RUN_SIZE);
      } else if c !in small.chunks && j == 0 {
      } else {
        assert offset >= CHUNK_SIZE;
      }
    }

    lemma InRuns(p: int, o: int)
      ensures S.Block(w.small, p, o) ==> p in w.small.runs
    {
    }

    lemma SameTwice(w0: Whole, w1: Whole, w2: Whole)
      requires SameLive(w0, w1) && SameLive(w1, w2)
      ensures SameLive(w0, w2)
    {
      hide LiveAt;
    }

    lemma Fits(c: int)
      ensures |{0}| < S.PAGES
    {
    }

    lemma RunAdded(w: Whole, s: S.Small, p: int)
      requires WholeHolds(w) && S.SmallHolds(s) && s.pages.Keys == w.small.pages.Keys && p !in w.small.runs
      requires p in s.runs && s.runs == w.small.runs[p := s.runs[p]]
      requires forall q, u :: S.Block(s, q, u) <==> S.Block(w.small, q, u)
      ensures WholeHolds(w.(small := s)) && SameLive(w, w.(small := s))
    {
      hide S.SmallHolds, WholeHolds, SameLive;
      SmallStep(w, s);
    }

    lemma TableOf(w: Whole)
      requires WholeHolds(w)
      ensures TableHolds(w.table) && |w.table| == ARENAS && S.SmallHolds(w.small)
    {
    }

    lemma SameAsBefore(w: Whole)
      ensures SameLive(w, w)
    {
    }
  }
}
