/** What is held at a position, and what a free does to the whole heap. */
module WholeFree {
  import opened Basics
  import opened MappingCache
  import opened ArenaTable
  import opened WholeHeap
  import S = SmallState
  import R = SmallRun
  import U = MediumUnits

  /** index2pos */
  function Pos(index: int, offset: int): int {
    index * ARENA_SPAN + offset
  }

  /** The chunk a position lies in is the one its arena's entry names. */
  lemma ChunkAtPos(t: seq<Arena>, index: nat, offset: nat, c: int, len: int)
    requires TableHolds(t) && offset < ARENA_SPAN && InChunk(t, c, Pos(index, offset), len)
    ensures index < ARENAS && offset / CHUNK_SIZE < ARENA_CHUNKS
    ensures c == ChunkPos(index, offset / CHUNK_SIZE) == t[index].chunks[offset / CHUNK_SIZE]
    ensures t[index].kind != LargeArena && t[index].kind != EmptyArena && offset < t[index].size
  {
    var i, j :| ChunkIn(t, i, j, c);
    ChunkWhere(t, i, j, c);
    assert ArenaHolds(t[i], i);
    InChunkBounds(t, c, Pos(index, offset), len);
    hide *;
    Arithmetic(index, offset, i, j);
  }

  lemma Arithmetic(index: nat, offset: nat, i: int, j: int)
    requires offset < ARENA_SPAN && 0 <= j < ARENA_CHUNKS
    requires ChunkPos(i, j) <= Pos(index, offset) < ChunkPos(i, j) + CHUNK_SIZE
    ensures index == i && offset / CHUNK_SIZE == j && offset < ARENA_UNIT
  {
  }

  /** Nothing is held in an arena without that chunk. */
  lemma NoChunkNoBlock(w: Whole, index: nat, offset: nat)
    requires WholeHolds(w) && offset < ARENA_SPAN
    requires index < ARENAS ==> w.table[index].kind != LargeArena
    requires index < ARENAS && offset < w.table[index].size && offset / CHUNK_SIZE < ARENA_CHUNKS ==>
      w.table[index].chunks[offset / CHUNK_SIZE] == SHM_NULL
    ensures forall len :: !LiveAt(w, Pos(index, offset), len)
  {
    forall len ensures !LiveAt(w, Pos(index, offset), len) {
      if LiveAt(w, Pos(index, offset), len) {
        NotLarge(w, index, offset, len);
        var c := ChunkOf(w, Pos(index, offset), len);
        ChunkAtPos(w.table, index, offset, c, len);
      }
    }
  }

  lemma NotLarge(w: Whole, index: nat, offset: nat, len: int)
    requires offset < ARENA_SPAN && (index < |w.table| ==> w.table[index].kind != LargeArena)
    ensures !exists i :: LargeLive(w, i, Pos(index, offset), len)
  {
  }

  /** Two chunks that contain the same position are the same. */
  lemma SameChunk(t: seq<Arena>, c: int, d: int, pos: int, len: int)
    requires TableHolds(t) && HasChunk(t, c) && c <= pos < c + CHUNK_SIZE && InChunk(t, d, pos, len)
    ensures c == d
  {
    var i, j :| ChunkIn(t, i, j, c);
    ChunkWhere(t, i, j, c);
    var k, l :| ChunkIn(t, k, l, d);
    ChunkWhere(t, k, l, d);
    InChunkBounds(t, d, pos, len);
    hide *;
    Overlap(c, d, pos);
  }

  lemma Overlap(c: int, d: int, pos: int)
    requires c % CHUNK_SIZE == 0 && d % CHUNK_SIZE == 0 && c <= pos < c + CHUNK_SIZE && d <= pos < d + CHUNK_SIZE
    ensures c == d
  {
  }

  /** No large block is held inside a chunk. */
  lemma ChunkNotLarge(w: Whole, c: int, pos: int, len: int)
    requires WholeHolds(w) && HasChunk(w.table, c) && c <= pos < c + CHUNK_SIZE
    ensures !exists i :: LargeLive(w, i, pos, len)
  {
    var i, j :| ChunkIn(w.table, i, j, c);
    ChunkWhere(w.table, i, j, c);
    forall k ensures !LargeLive(w, k, pos, len) {
      if LargeLive(w, k, pos, len) { Spans(i, j, k, pos); }
    }
  }

  lemma Spans(i: int, j: int, k: int, pos: int)
    requires 0 <= j < ARENA_CHUNKS && ChunkPos(i, j) <= pos < ChunkPos(i, j) + CHUNK_SIZE && pos == ChunkPos(k, 0)
    ensures i == k
  {
  }

  lemma PageOfBlock(w: Whole, p: int, o: int, pos: int, len: int) returns (c: int, i: nat)
    requires WholeHolds(w) && SmallLive(w, p, o, pos, len)
    ensures c in w.small.pages && i in w.small.pages[c] && i < S.PAGES && p == S.PagePos(c, i) && 0 <= o < R.RUN_SIZE
    ensures InChunk(w.table, c, pos, len)
    ensures p in w.small.runs && len == w.small.runs[p].elemsize > 0
  {
    hide R.RunHolds, R.LiveSlots, TableHolds, HasChunk;
    assert S.RunAt(w.small, p);
    var d, k :| d in w.small.pages && k in w.small.pages[d] && k > 0 && S.InPage(p, d, k);
    c, i := d, k;
    S.BlockSlot(w.small.runs[p], w.small.lists[p], o);
    R.SlotInPage(w.small.runs[p].elemsize, o);
  }

  /** A slot lies on the page of its run. */
  lemma SlotPage(w: Whole, p: int, o: int)
    requires WholeHolds(w) && S.Block(w.small, p, o)
    ensures p == p + o - (p + o) % R.RUN_SIZE
  {
    hide R.RunHolds, R.LiveSlots, TableHolds, HasChunk, R.IsSlot;
    var len := w.small.runs[p].elemsize;
    assert SmallLive(w, p, o, p + o, len);
    var c, i := PageOfBlock(w, p, o, p + o, len);
    Has(w, c);
    hide *;
    OnPage(w.table, c, i, o);
  }

  lemma OnPage(t: seq<Arena>, c: int, i: nat, o: int)
    requires TableHolds(t) && HasChunk(t, c) && 0 <= o < R.RUN_SIZE
    ensures var p := S.PagePos(c, i); p == p + o - (p + o) % R.RUN_SIZE
  {
    var k, j :| ChunkIn(t, k, j, c);
    ChunkWhere(t, k, j, c);
    hide *;
    S.Aligned(c, i);
    OnPageStart(S.PagePos(c, i), o);
  }

  lemma OnPageStart(p: int, o: int)
    requires p % R.RUN_SIZE == 0 && 0 <= o < R.RUN_SIZE
    ensures p == p + o - (p + o) % R.RUN_SIZE
  {
  }

  /** In a chunk of runs, what is held lies in a used page and is a slot of the run there. */
  lemma SmallBlockThere(w: Whole, c: int, offset: nat, len: int)
    requires WholeHolds(w) && c in w.small.pages && offset < CHUNK_SIZE && LiveAt(w, c + offset, len)
    ensures var i := offset / R.RUN_SIZE;
      i < S.PAGES && i in w.small.pages[c] && S.Block(w.small, S.PagePos(c, i), offset % R.RUN_SIZE)
    ensures len == w.small.runs[S.PagePos(c, offset / R.RUN_SIZE)].elemsize > 0
  {
    var pos := c + offset;
    ChunkNotLarge(w, c, pos, len);
    hide S.SmallHolds, TableHolds, HasChunk, InChunk;
    if exists d, n :: MediumLive(w, d, n, pos, len) {
      var d, n :| MediumLive(w, d, n, pos, len);
      MediumInChunk(w, d, n, pos, len);
      SameChunk(w.table, c, d, pos, len);
    } else {
      var p, o :| SmallLive(w, p, o, pos, len);
      var d, i := PageOfBlock(w, p, o, pos, len);
      SameChunk(w.table, c, d, pos, len);
      PageArithmetic(c, i, o, offset);
    }
  }

  lemma PageArithmetic(c: int, i: nat, o: int, offset: nat)
    requires S.PagePos(c, i) + o == c + offset && 0 <= o < R.RUN_SIZE
    ensures offset / R.RUN_SIZE == i && offset % R.RUN_SIZE == o
  {
  }

  lemma UnitArithmetic(c: int, n: int, offset: nat)
    requires c + n * PAGE_SIZE == c + offset
    ensures offset % PAGE_SIZE == 0 && offset / PAGE_SIZE == n
  {
  }

  lemma MediumAt(w: Whole, d: int, n: int, pos: int, len: int)
    requires MediumLive(w, d, n, pos, len)
    ensures pos == d + n * PAGE_SIZE && d in w.medium && n in U.Live(w.medium[d])
    ensures len == U.Live(w.medium[d])[n] * PAGE_SIZE
  {
  }

  /** No block of a run starts in a chunk of pages. */
  lemma NoSmallThere(w: Whole, c: int, p: int, o: int, pos: int, len: int)
    requires WholeHolds(w) && c in w.medium && c <= pos < c + CHUNK_SIZE
    ensures !SmallLive(w, p, o, pos, len)
  {
    hide S.SmallHolds, TableHolds, HasChunk, InChunk, SmallLive;
    if SmallLive(w, p, o, pos, len) {
      var d, i := PageOfBlock(w, p, o, pos, len);
      SameChunk(w.table, c, d, pos, len);
    }
  }

  lemma MediumOnlyAt(w: Whole, pos: int, len: int)
    requires LiveAt(w, pos, len) && !(exists i :: LargeLive(w, i, pos, len))
    requires forall p, o :: !SmallLive(w, p, o, pos, len)
    ensures exists d, n :: MediumLive(w, d, n, pos, len)
  {
  }

  lemma Has(w: Whole, c: int)
    requires WholeHolds(w)
    ensures TableHolds(w.table) && (c in w.medium || c in w.small.pages ==> HasChunk(w.table, c))
  {
  }

  /** In a chunk of pages, what is held starts a live unit. */
  lemma MediumBlockThere(w: Whole, c: int, offset: nat, len: int)
    requires WholeHolds(w) && c in w.medium && offset < CHUNK_SIZE && LiveAt(w, c + offset, len)
    ensures offset % PAGE_SIZE == 0 && offset / PAGE_SIZE in U.Live(w.medium[c])
    ensures len == U.Live(w.medium[c])[offset / PAGE_SIZE] * PAGE_SIZE
  {
    hide *;
    var pos := c + offset;
    Has(w, c);
    ChunkNotLarge(w, c, pos, len);
    forall p, o ensures !SmallLive(w, p, o, pos, len) { NoSmallThere(w, c, p, o, pos, len); }
    MediumOnlyAt(w, pos, len);
    var d, n :| MediumLive(w, d, n, pos, len);
    MediumInChunk(w, d, n, pos, len);
    SameChunk(w.table, c, d, pos, len);
    MediumAt(w, d, n, pos, len);
    UnitArithmetic(c, n, offset);
  }

  /** What is held at a position in a large arena is the whole of it. */
  lemma LargeBlockThere(w: Whole, index: nat, offset: nat, len: int)
    requires WholeHolds(w) && index < ARENAS && w.table[index].kind == LargeArena && offset < ARENA_SPAN
    requires LiveAt(w, Pos(index, offset), len)
    ensures offset == 0 && len == w.table[index].size
  {
    hide *;
    RowCount(w);
    if i :| LargeLive(w, i, Pos(index, offset), len) {
      LargeAt(w, i, index, offset, len);
    } else {
      var c := ChunkOf(w, Pos(index, offset), len);
      Has(w, c);
      ChunkAtPos(w.table, index, offset, c, len);
    }
  }

  lemma LargeHeld(w: Whole, index: nat)
    requires WholeHolds(w) && LargeRow(w.table, index)
    ensures LiveAt(w, Pos(index, 0), w.table[index].size) && w.table[index].size > 0
  {
    assert ArenaHolds(w.table[index], index);
    assert LargeLive(w, index, Pos(index, 0), w.table[index].size);
  }

  lemma RowCount(w: Whole)
    requires WholeHolds(w)
    ensures |w.table| == ARENAS && ARENA_SPAN > 0
  {
  }

  lemma LargeAt(w: Whole, i: int, index: nat, offset: nat, len: int)
    requires LargeLive(w, i, Pos(index, offset), len) && offset < ARENA_SPAN
    ensures i == index < |w.table| && offset == 0 && w.table[index].kind == LargeArena && len == w.table[index].size
  {
  }

  /** Blocks behind a chunk header never start an arena, so what is held there is a large arena. */
  lemma AtArenaStart(w: Whole, index: nat, len: int)
    requires WholeHolds(w) && LiveAt(w, Pos(index, 0), len)
    ensures index < ARENAS && w.table[index].kind == LargeArena && len == w.table[index].size
  {
    hide *;
    RowCount(w);
    if i :| LargeLive(w, i, Pos(index, 0), len) {
      LargeAt(w, i, index, 0, len);
    } else {
      var c := ChunkOf(w, Pos(index, 0), len);
      Has(w, c);
      ChunkAtPos(w.table, index, 0, c, len);
      InChunkBounds(w.table, c, Pos(index, 0), len);
      StartOfArena(index);
    }
  }

  lemma StartOfArena(index: nat)
    ensures ChunkPos(index, 0 / CHUNK_SIZE) == Pos(index, 0)
  {
  }

  /** Where the run on a page lies. */
  lemma RunPlace(w: Whole, q: int, pos: int) returns (c: int, offset: nat)
    requires WholeHolds(w) && q in w.small.runs && q == pos - pos % R.RUN_SIZE
    ensures c in w.small.pages && offset < CHUNK_SIZE && pos == c + offset && q == S.PagePos(c, offset / R.RUN_SIZE)
  {
    hide R.RunHolds, TableHolds, HasChunk;
    assert S.RunAt(w.small, q);
    var d, i :| d in w.small.pages && i in w.small.pages[d] && i > 0 && S.InPage(q, d, i);
    c, offset := d, i * R.RUN_SIZE + pos % R.RUN_SIZE;
    assert S.InPage(q, c, i);
    hide *;
    InPageOffset(q, c, i, pos);
  }

  lemma InPageOffset(q: int, c: int, i: nat, pos: int)
    requires S.InPage(q, c, i) && q == pos - pos % R.RUN_SIZE
    ensures var o := i * R.RUN_SIZE + pos % R.RUN_SIZE;
      0 <= o < CHUNK_SIZE && pos == c + o && o / R.RUN_SIZE == i && q == S.PagePos(c, i)
  {
  }

  /** What is held on the page of a run is one of its slots. */
  lemma RunBlock(w: Whole, q: int, pos: int, len: int)
    requires WholeHolds(w) && q in w.small.runs && q == pos - pos % R.RUN_SIZE && LiveAt(w, pos, len)
    ensures len == w.small.runs[q].elemsize
  {
    hide *;
    var c, offset := RunPlace(w, q, pos);
    SmallBlockThere(w, c, offset, len);
  }

  /** A run is not in a large arena. */
  lemma RunArena(w: Whole, q: int, index: nat, offset: nat)
    requires WholeHolds(w) && q in w.small.runs && offset < ARENA_SPAN
    requires q == Pos(index, offset) - Pos(index, offset) % R.RUN_SIZE
    ensures index < ARENAS ==> w.table[index].kind != LargeArena
  {
    var c, o := RunPlace(w, q, Pos(index, offset));
    Has(w, c);
    var i, j :| ChunkIn(w.table, i, j, c);
    ChunkWhere(w.table, i, j, c);
    hide *;
    Arithmetic(index, offset, i, j);
  }

  /** A block that is held lies in an arena the table has. */
  lemma HeldArena(h: Whole, pos: int, len: int)
    requires WholeHolds(h) && LiveAt(h, pos, len)
    ensures 0 <= pos / ARENA_SPAN < ARENAS == |h.table| && h.table[pos / ARENA_SPAN].kind != EmptyArena
  {
    hide *;
    RowCount(h);
    if i :| LargeLive(h, i, pos, len) {
      LargeRowOf(h, i, pos, len);
    } else {
      var c := ChunkOf(h, pos, len);
      Has(h, c);
      var i := ChunkArenaOf(h.table, c, pos, len);
      ChunkRowOf(h.table, c, pos, len, i);
    }
  }

  lemma LargeRowOf(h: Whole, i: int, pos: int, len: int)
    requires LargeLive(h, i, pos, len)
    ensures pos / ARENA_SPAN == i && 0 <= i < |h.table| && h.table[i].kind != EmptyArena
  {
    LargeArenaOf(i);
  }

  lemma ChunkRowOf(t: seq<Arena>, c: int, pos: int, len: int, i: int)
    requires TableHolds(t) && InChunk(t, c, pos, len) && pos / ARENA_SPAN == i
    ensures 0 <= i < |t| && t[i].kind != EmptyArena
  {
    var k, j :| ChunkIn(t, k, j, c);
    ChunkWhere(t, k, j, c);
  }

  lemma HeldIndex(h: Whole, index: nat, offset: nat, len: int)
    requires WholeHolds(h) && offset < ARENA_SPAN && LiveAt(h, Pos(index, offset), len)
    ensures index < ARENAS == |h.table| && h.table[index].kind != EmptyArena
  {
    HeldArena(h, Pos(index, offset), len);
    hide *;
    IndexOf(index, offset);
  }

  lemma IndexOf(index: nat, offset: nat)
    requires offset < ARENA_SPAN
    ensures Pos(index, offset) / ARENA_SPAN == index
  {
  }

  // ----- frees -----

  /** Row `index` is a large arena. */
  ghost predicate LargeRow(t: seq<Arena>, index: nat) {
    index < |t| && t[index].kind == LargeArena
  }

  lemma IsLargeRow(t: seq<Arena>, index: nat)
    ensures LargeRow(t, index) <==> index < |t| && t[index].kind == LargeArena
  {
  }

  /** What a free leaves: the block at `pos` is gone, or there was none and nothing has changed. */
  ghost predicate FreedAt(w: Whole, w': Whole, pos: int) {
    && (forall len :: LiveAt(w, pos, len) ==> OneMore(w', w, pos, len))
    && ((forall len :: !LiveAt(w, pos, len)) ==> SameLive(w, w'))
  }

  /** The block at this position is not held any more. In a large arena any offset names the block. */
  ghost predicate Freed(w0: Whole, w1: Whole, index: nat, offset: nat) {
    if LargeRow(w0.table, index) then OneMore(w1, w0, Pos(index, 0), w0.table[index].size)
    else FreedAt(w0, w1, Pos(index, offset))
  }

  lemma IsFreedAt(w0: Whole, w1: Whole, index: nat, offset: nat)
    requires FreedAt(w0, w1, Pos(index, offset)) && (index < |w0.table| ==> w0.table[index].kind != LargeArena)
    ensures Freed(w0, w1, index, offset)
  {
  }

  lemma IsFreed(w0: Whole, w1: Whole, index: nat, offset: nat)
    requires index < |w0.table| && w0.table[index].kind == LargeArena
    requires OneMore(w1, w0, Pos(index, 0), w0.table[index].size)
    ensures Freed(w0, w1, index, offset)
  {
  }

  /** The block a position names: in a large arena any offset names the one block there. */
  ghost function Named(w: Whole, index: nat, offset: nat): int {
    if LargeRow(w.table, index) then Pos(index, 0) else Pos(index, offset)
  }

  /** If a block is named, a free ends exactly that one. */
  lemma FreedNamed(w0: Whole, w1: Whole, index: nat, offset: nat, len: int)
    requires WholeHolds(w0) && Freed(w0, w1, index, offset) && LiveAt(w0, Named(w0, index, offset), len)
    ensures OneMore(w1, w0, Named(w0, index, offset), len)
  {
    hide LiveAt, WholeHolds, OneMore;
    if LargeRow(w0.table, index) { AtArenaStart(w0, index, len); }
  }

  /** A block is held in chunk `c` that does not start at `pos`. */
  ghost predicate HoldsOther(h: Whole, c: int, pos: int) {
    exists q, len :: LiveAt(h, q, len) && q != pos && c <= q < c + CHUNK_SIZE
  }

  /** There is a run in chunk `c`. */
  ghost predicate RunOn(s: S.Small, c: int) {
    exists p :: p in s.runs && S.OnChunk(p, c)
  }

  /** The table `t` without its j-th chunk of row `i`; the row, but for the context's, goes with its last. */
  ghost predicate ChunkDeleted(t: seq<Arena>, t': seq<Arena>, i: nat, j: nat)
    requires i < |t| && j < |t[i].chunks|
  {
    t' == t[i :=
      if i != 0 && forall k :: 0 <= k < |t[i].chunks| && k != j ==> t[i].chunks[k] == SHM_NULL then CLEARED
      else t[i].(chunks := t[i].chunks[j := SHM_NULL], used := t[i].used - 1)]
  }

  /** What the free of the block at `pos`, in the j-th chunk of row `i`, leaves. A chunk of pages stays
      exactly if another block is held in it, and nothing changes for the runs. A chunk of runs stays
      exactly if a run is left in it, and the run of the block goes exactly if it was superfluous. */
  ghost predicate ChunkLeft(h: Whole, h': Whole, i: nat, j: nat, pos: int) {
    && i < |h.table| && j < |h.table[i].chunks|
    && var c := h.table[i].chunks[j];
      && HasChunk(h.table, c) && c <= pos < c + CHUNK_SIZE
      && (HasChunk(h'.table, c) <==> if c in h.medium then HoldsOther(h, c, pos) else RunOn(h'.small, c))
      && (if HasChunk(h'.table, c) then h'.table == h.table else ChunkDeleted(h.table, h'.table, i, j))
      && if c in h.medium then h'.small == h.small
        else S.RunsAfter(h.small, h'.small, pos - pos % R.RUN_SIZE, pos % R.RUN_SIZE)
  }

  /** What a free leaves: a large arena goes, and nothing changes if no block is held at the position. */
  ghost predicate Shrinks(h: Whole, h': Whole, index: nat, offset: nat) {
    if LargeRow(h.table, index)
    then h'.table == h.table[index := CLEARED] && h'.small == h.small && h'.medium == h.medium
    else if forall len :: !LiveAt(h, Pos(index, offset), len) then h' == h
    else ChunkLeft(h, h', index, offset / CHUNK_SIZE, Pos(index, offset))
  }

  lemma ShrinksIs(h: Whole, index: nat, offset: nat)
    ensures (!LargeRow(h.table, index) && forall len :: !LiveAt(h, Pos(index, offset), len)) ==>
      Shrinks(h, h, index, offset)
    ensures forall h' :: LargeRow(h.table, index) && h' == h.(table := h.table[index := CLEARED]) ==>
      Shrinks(h, h', index, offset)
    ensures forall h' :: !LargeRow(h.table, index) && ChunkOr(h, h', index, offset / CHUNK_SIZE, Pos(index, offset)) ==>
      Shrinks(h, h', index, offset)
  {
    hide LiveAt, ChunkLeft;
  }

  /** The same for a position that is not in a large arena. */
  ghost predicate ChunkOr(h: Whole, h': Whole, i: nat, j: nat, pos: int) {
    if forall len :: !LiveAt(h, pos, len) then h' == h else ChunkLeft(h, h', i, j, pos)
  }

  lemma ShrinksTable(h: Whole, h': Whole, index: nat, offset: nat)
    requires WholeHolds(h) && Shrinks(h, h', index, offset)
    ensures Shrunk(h.table, h'.table, index, offset)
  {
    hide LiveAt, S.SmallHolds, S.RunsAfter, RunOn, HoldsOther;
    var j := offset / CHUNK_SIZE;
    if !LargeRow(h.table, index) && ChunkLeft(h, h', index, j, Pos(index, offset)) {
      var c := h.table[index].chunks[j];
      if !HasChunk(h'.table, c) { DeletedIs(h.table, h'.table, index, j, c, Pos(index, offset)); }
    }
  }

  lemma DeletedIs(t: seq<Arena>, t': seq<Arena>, i: nat, j: nat, c: int, pos: int)
    requires TableHolds(t) && i < |t| && j < |t[i].chunks| && t[i].chunks[j] == c && HasChunk(t, c)
    requires ChunkDeleted(t, t', i, j)
    ensures ChunkStep(t, t', i, j)
  {
    assert ArenaHolds(t[i], i);
    var k, l :| ChunkIn(t, k, l, c);
    ChunkWhere(t, k, l, c);
    hide HasChunk, ArenaHolds;
    if i != 0 || j != 0 {
      assert ChunkIn(t, i, j, c);
      WithoutChunkHolds(t, i, j);
    }
  }

  lemma SomeKey<T, U>(m: map<T, U>) returns (k: T)
    requires m != map[]
    ensures k in m
  {
    assert m.Keys != {};
    k :| k in m.Keys;
  }

  /** No unit but this one is live exactly if no other block is held in the chunk. */
  lemma OtherUnits(h: Whole, c: int, n: int)
    requires WholeHolds(h) && c in h.medium && n in U.Live(h.medium[c])
    ensures U.Live(h.medium[c]) - {n} == map[] <==> !HoldsOther(h, c, c + n * PAGE_SIZE)
  {
    hide WholeHolds, LiveAt, HoldsOther, U.Live;
    var pos := c + n * PAGE_SIZE;
    if U.Live(h.medium[c]) - {n} != map[] {
      var m := SomeKey(U.Live(h.medium[c]) - {n});
      UnitHeld(h, c, m);
      OtherIs(h, c, pos, c + m * PAGE_SIZE, U.Live(h.medium[c])[m] * PAGE_SIZE);
    }
    if HoldsOther(h, c, pos) {
      var q, len := OtherOf(h, c, pos);
      MediumBlockThere(h, c, q - c, len);
      InMapLess(U.Live(h.medium[c]), n, (q - c) / PAGE_SIZE);
    }
  }

  lemma InMapLess<U>(m: map<int, U>, n: int, k: int)
    requires k in m && k != n
    ensures k in m - {n} && m - {n} != map[]
  {
  }

  lemma OtherIs(h: Whole, c: int, pos: int, q: int, len: int)
    requires LiveAt(h, q, len) && q != pos && c <= q < c + CHUNK_SIZE
    ensures HoldsOther(h, c, pos)
  {
  }

  lemma OtherOf(h: Whole, c: int, pos: int) returns (q: int, len: int)
    requires HoldsOther(h, c, pos)
    ensures LiveAt(h, q, len) && q != pos && c <= q < c + CHUNK_SIZE
  {
    q, len :| LiveAt(h, q, len) && q != pos && c <= q < c + CHUNK_SIZE;
  }

  lemma UnitHeld(h: Whole, c: int, m: int)
    requires WholeHolds(h) && c in h.medium && m in U.Live(h.medium[c])
    ensures LiveAt(h, c + m * PAGE_SIZE, U.Live(h.medium[c])[m] * PAGE_SIZE)
    ensures c <= c + m * PAGE_SIZE < c + CHUNK_SIZE
  {
    var pos, len := c + m * PAGE_SIZE, U.Live(h.medium[c])[m] * PAGE_SIZE;
    hide S.SmallHolds, TableHolds, HasChunk, U.Live, U.Tiles;
    assert MediumLive(h, c, m, pos, len);
    MediumInChunk(h, c, m, pos, len);
    InChunkBounds(h.table, c, pos, len);
  }

  lemma AsChunkOr(h: Whole, h': Whole, i: nat, j: nat, pos: int)
    ensures (forall len :: !LiveAt(h, pos, len)) && h' == h ==> ChunkOr(h, h', i, j, pos)
    ensures forall len :: LiveAt(h, pos, len) && ChunkLeft(h, h', i, j, pos) ==> ChunkOr(h, h', i, j, pos)
  {
    hide LiveAt, ChunkLeft;
  }

  /** The entry of a chunk before and after check_delete_chunk. */
  lemma EntryLeft(h: Whole, h': Whole, i: nat, j: nat, c: int, gone: bool)
    requires WholeHolds(h) && ChunkIn(h.table, i, j, c)
    requires gone ==> c == ChunkPos(i, j) && h'.table == WithoutChunk(h.table, i, j)
    requires !gone ==> h'.table == h.table
    ensures i < |h.table| && j < |h.table[i].chunks| && h.table[i].chunks[j] == c && HasChunk(h.table, c)
    ensures c % R.RUN_SIZE == 0 && c == ChunkPos(i, j) && (c in h.medium ==> c !in h.small.pages)
    ensures HasChunk(h'.table, c) <==> !gone
    ensures if HasChunk(h'.table, c) then h'.table == h.table else ChunkDeleted(h.table, h'.table, i, j)
  {
    hide S.SmallHolds, U.Tiles;
    ChunkWhere(h.table, i, j, c);
    assert ArenaHolds(h.table[i], i);
    assert HasChunk(h.table, c);
    if gone { WithoutChunkHolds(h.table, i, j); }
  }

  lemma PageAndSlot(c: int, offset: nat)
    requires c % R.RUN_SIZE == 0
    ensures var pos := c + offset;
      pos - pos % R.RUN_SIZE == S.PagePos(c, offset / R.RUN_SIZE) && pos % R.RUN_SIZE == offset % R.RUN_SIZE
  {
  }

  lemma RunChunkLeft(h: Whole, h': Whole, i: nat, j: nat, c: int, offset: nat, gone: bool)
    requires WholeHolds(h) && ChunkIn(h.table, i, j, c) && c in h.small.pages && offset < CHUNK_SIZE
    requires gone <==> forall p :: p in h'.small.runs ==> !S.OnChunk(p, c)
    requires gone ==> c == ChunkPos(i, j) && h'.table == WithoutChunk(h.table, i, j)
    requires !gone ==> h'.table == h.table
    requires S.RunsAfter(h.small, h'.small, S.PagePos(c, offset / R.RUN_SIZE), offset % R.RUN_SIZE)
    ensures ChunkLeft(h, h', i, j, c + offset)
  {
    hide WholeHolds, HasChunk, S.RunsAfter, S.OnChunk, ChunkDeleted;
    EntryLeft(h, h', i, j, c, gone);
    PageAndSlot(c, offset);
  }

  lemma PageChunkLeft(h: Whole, h': Whole, i: nat, j: nat, c: int, n: int, gone: bool)
    requires WholeHolds(h) && ChunkIn(h.table, i, j, c) && c in h.medium && n in U.Live(h.medium[c])
    requires gone <==> U.Live(h.medium[c]) - {n} == map[]
    requires gone ==> c == ChunkPos(i, j) && h'.table == WithoutChunk(h.table, i, j)
    requires !gone ==> h'.table == h.table
    requires h'.small == h.small
    ensures ChunkLeft(h, h', i, j, c + n * PAGE_SIZE)
  {
    hide WholeHolds, HasChunk, HoldsOther, ChunkDeleted, LiveAt, U.Live;
    EntryLeft(h, h', i, j, c, gone);
    OtherUnits(h, c, n);
    UnitHeld(h, c, n);
  }

  /** check_delete_chunk has been called for the j-th chunk of row `i`, or not. */
  ghost predicate ChunkStep(t: seq<Arena>, t': seq<Arena>, i: nat, j: nat) {
    t' == t || (i < |t| && j < |t[i].chunks| && t[i].chunks[j] == ChunkPos(i, j) && t' == WithoutChunk(t, i, j))
  }

  /** What a free does to the table: a large arena goes, and else the chunk of the position may go. */
  ghost predicate Shrunk(t: seq<Arena>, t': seq<Arena>, index: nat, offset: nat) {
    if LargeRow(t, index) then t' == t[index := CLEARED] else ChunkStep(t, t', index, offset / CHUNK_SIZE)
  }

  lemma FreedOne(w: Whole, w': Whole, pos: int, len: int)
    requires OneMore(w', w, pos, len)
    ensures FreedAt(w, w', pos)
  {
    hide LiveAt;
  }

  lemma FreedNone(w: Whole, w': Whole, pos: int)
    requires (forall len :: !LiveAt(w, pos, len)) && SameLive(w, w')
    ensures FreedAt(w, w', pos)
  {
    hide LiveAt;
  }

  /** A live unit of a chunk of pages has gone. */
  lemma MediumGiven(w: Whole, c: int, u: seq<U.Block>, n: int)
    requires WholeHolds(w) && c in w.medium && n in U.Live(w.medium[c]) && U.Tiles(u, 1, UNITS)
    requires U.Live(u) == U.Live(w.medium[c]) - {n}
    ensures var w' := w.(medium := w.medium[c := u]);
      WholeHolds(w') && OneMore(w', w, c + n * PAGE_SIZE, U.Live(w.medium[c])[n] * PAGE_SIZE)
  {
    hide S.SmallHolds, TableHolds, HasChunk, U.Live, U.Tiles;
    var w' := w.(medium := w.medium[c := u]);
    assert MediumLive(w, c, n, c + n * PAGE_SIZE, U.Live(w.medium[c])[n] * PAGE_SIZE);
    ExtraMedium(w', w, c, n, c + n * PAGE_SIZE, U.Live(w.medium[c])[n] * PAGE_SIZE);
  }

  /** A unit of a chunk of pages has been taken. */
  lemma MediumTaken(w: Whole, c: int, u: seq<U.Block>, n: int, k: int)
    requires WholeHolds(w) && c in w.medium && n !in U.Live(w.medium[c]) && U.Tiles(u, 1, UNITS)
    requires U.Live(u) == U.Live(w.medium[c])[n := k]
    ensures var w' := w.(medium := w.medium[c := u]);
      WholeHolds(w') && OneMore(w, w', c + n * PAGE_SIZE, k * PAGE_SIZE) && c + n * PAGE_SIZE > 0
  {
    hide S.SmallHolds, TableHolds, HasChunk, U.Live, U.Tiles;
    var w' := w.(medium := w.medium[c := u]);
    assert MediumLive(w', c, n, c + n * PAGE_SIZE, k * PAGE_SIZE);
    MediumInChunk(w', c, n, c + n * PAGE_SIZE, k * PAGE_SIZE);
    PositiveChunk(w', c, c + n * PAGE_SIZE, k * PAGE_SIZE);
    ExtraMedium(w, w', c, n, c + n * PAGE_SIZE, k * PAGE_SIZE);
  }

  lemma PositiveChunk(w: Whole, c: int, pos: int, len: int)
    requires WholeHolds(w) && InChunk(w.table, c, pos, len)
    ensures pos > 0
  {
    var i, j :| ChunkIn(w.table, i, j, c);
    ChunkWhere(w.table, i, j, c);
  }

  lemma FreedSizes(s: S.Small, c: int, i: nat, o: int)
    requires S.SmallHolds(s) && c in s.pages && i in s.pages[c] && S.Block(s, S.PagePos(c, i), o)
    ensures var p := S.PagePos(c, i);
      && 0 <= s.runs[p].confIndex < |s.members| && SameSizes(S.Freed(s, c, i, o), s)
      && S.Freed(s, c, i, o).pages.Keys == s.pages.Keys
  {
    hide S.RunsAfter;
    S.FreedHolds(s, c, i, o);
    hide S.Block, S.SmallHolds;
  }

  lemma FreedToFacts(s: S.Small, s': S.Small, c: int, i: nat, o: int, check: bool)
    requires S.FreedTo(s, s', c, i, o, check)
    ensures c in s.pages && S.Block(s, S.PagePos(c, i), o) && 0 <= s.runs[S.PagePos(c, i)].confIndex < |s.members|
    ensures S.PagePos(c, i) in s.runs
    ensures var s1 := S.Freed(s, c, i, o);
      c in s1.pages && (check <==> s1.pages[c] == {0}) && s' == if check then s1.(pages := s1.pages - {c}) else s1
  {
  }

  /** free_chunk in a chunk of runs. */
  lemma SmallFreed(w: Whole, s: S.Small, c: int, i: nat, o: int, check: bool) returns (s1: S.Small, len: int)
    requires WholeHolds(w) && S.SmallHolds(w.small) && c in w.small.pages && i in w.small.pages[c]
    requires S.FreedTo(w.small, s, c, i, o, check)
    ensures WholeHolds(w.(small := s1)) && OneMore(w.(small := s1), w, S.PagePos(c, i) + o, len)
    ensures c in s1.pages && (check <==> s1.pages[c] == {0})
    ensures s == (if check then s1.(pages := s1.pages - {c}) else s1)
    ensures S.OneSpare(w.small) ==> S.OneSpare(s1)
  {
    hide *;
    FreedToFacts(w.small, s, c, i, o, check);
    S.FreedHolds(w.small, c, i, o);
    FreedSizes(w.small, c, i, o);
    s1, len := S.Freed(w.small, c, i, o), w.small.runs[S.PagePos(c, i)].elemsize;
    SmallGiven(w, s1, S.PagePos(c, i), o);
  }

  /** A chunk without blocks leaves the table. */
  lemma ChunkGone(w: Whole, i: nat, j: nat, c: int)
    requires WholeHolds(w) && ChunkIn(w.table, i, j, c) && (c in w.medium ==> U.Live(w.medium[c]) == map[])
    requires c in w.small.pages ==> w.small.pages[c] == {0}
    ensures var w' := Whole(w.small.(pages := w.small.pages - {c}), w.medium - {c}, WithoutChunk(w.table, i, j));
      WholeHolds(w') && SameLive(w, w')
  {
    assert i < |w.table| && j < |w.table[i].chunks|;
    hide *;
    var w' := Whole(w.small.(pages := w.small.pages - {c}), w.medium - {c}, WithoutChunk(w.table, i, j));
    Has(w, c);
    ChunkWhere(w.table, i, j, c);
    WithoutChunkHolds(w.table, i, j);
    WithoutChunkLarge(w.table, i, j);
    PagesGone(w, c);
    StillWhole(w, w', c);
    NoUnitsGone(w, w', c);
    SameLiveFrom(w, w');
  }

  lemma PagesGone(w: Whole, c: int)
    requires WholeHolds(w) && (c in w.small.pages ==> w.small.pages[c] == {0})
    ensures var s := w.small.(pages := w.small.pages - {c});
      S.SmallHolds(s) && SameBlocks(w.small, s) && SameSizes(w.small, s)
  {
    if c in w.small.pages { S.DropChunkHolds(w.small, c); } else { assert w.small.pages - {c} == w.small.pages; }
  }

  lemma StillWhole(w: Whole, w': Whole, c: int)
    requires WholeHolds(w) && S.SmallHolds(w'.small) && TableHolds(w'.table)
    requires w'.small.pages == w.small.pages - {c} && w'.medium == w.medium - {c}
    requires forall d :: HasChunk(w'.table, d) <==> HasChunk(w.table, d) && d != c
    ensures WholeHolds(w')
  {
    hide S.SmallHolds, TableHolds, HasChunk;
  }

  lemma NoUnitsGone(w: Whole, w': Whole, c: int)
    requires w'.medium == w.medium - {c} && (c in w.medium ==> U.Live(w.medium[c]) == map[])
    ensures forall d, n, pos, len :: MediumLive(w', d, n, pos, len) <==> MediumLive(w, d, n, pos, len)
  {
    hide U.Live;
  }

  lemma WithoutChunkLarge(t: seq<Arena>, i: nat, j: nat)
    requires TableHolds(t) && ChunkIn(t, i, j, ChunkPos(i, j))
    ensures SameLarge(t, WithoutChunk(t, i, j))
  {
    ChunkWhere(t, i, j, ChunkPos(i, j));
  }

  /** The table with a large arena more. */
  ghost function WithLarge(t: seq<Arena>, size: int): seq<Arena>
    requires |t| == ARENAS
  {
    var e := FirstUnused(t, 1);
    if e < ARENAS then t[e := FreshArena(LargeArena, e, size)] else t
  }

  lemma WithLargeIs(t: seq<Arena>, size: int)
    requires |t| == ARENAS
    ensures var e := FirstUnused(t, 1); e < ARENAS ==> WithLarge(t, size) == t[e := FreshArena(LargeArena, e, size)]
  {
  }

  lemma LargeMade(w: Whole, size: int)
    requires WholeHolds(w) && size > 0 && FirstUnused(w.table, 1) < ARENAS
    ensures var e := FirstUnused(w.table, 1); var w' := w.(table := w.table[e := FreshArena(LargeArena, e, size)]);
      WholeHolds(w') && OneMore(w, w', ChunkPos(e, 0), size)
  {
    var e := FirstUnused(w.table, 1);
    var w' := w.(table := w.table[e := FreshArena(LargeArena, e, size)]);
    NewLargeHolds(w.table, size);
    hide S.SmallHolds, TableHolds, HasChunk;
    assert LargeLive(w', e, ChunkPos(e, 0), size);
    ExtraLarge(w, w', e, ChunkPos(e, 0), size);
  }

  lemma LargeGone(w: Whole, i: nat)
    requires WholeHolds(w) && i < ARENAS && w.table[i].kind == LargeArena
    ensures var w' := w.(table := w.table[i := CLEARED]);
      WholeHolds(w') && OneMore(w', w, ChunkPos(i, 0), w.table[i].size)
  {
    var w' := w.(table := w.table[i := CLEARED]);
    assert ArenaHolds(w.table[i], i);
    DeleteLargeHolds(w.table, i);
    hide S.SmallHolds, TableHolds, HasChunk;
    assert LargeLive(w, i, ChunkPos(i, 0), w.table[i].size);
    ExtraLarge(w', w, i, ChunkPos(i, 0), w.table[i].size);
  }
}
