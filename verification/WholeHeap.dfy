/** The whole heap as values: small runs, medium chunks and the table of arenas together, and the
    blocks the users hold. */
module WholeHeap {
  import opened Basics
  import opened MappingCache
  import opened ArenaTable
  import S = SmallState
  import R = SmallRun
  import U = MediumUnits

  /** The runs, the units of every medium chunk, and the table. */
  datatype Whole = Whole(small: S.Small, medium: map<int, seq<U.Block>>, table: seq<Arena>)

  /** Every chunk in the table is a chunk of runs or of pages, not both, and there are no others. */
  ghost predicate WholeHolds(w: Whole) {
    && S.SmallHolds(w.small) && TableHolds(w.table)
    && (forall c :: c in w.medium ==> U.Tiles(w.medium[c], 1, UNITS))
    && (forall c :: HasChunk(w.table, c) <==> c in w.small.pages || c in w.medium)
    && (forall c :: c in w.small.pages ==> c !in w.medium)
  }

  // ----- the blocks the users hold -----

  ghost predicate SmallLive(w: Whole, p: int, o: int, pos: int, len: int) {
    S.Block(w.small, p, o) && pos == p + o && len == w.small.runs[p].elemsize
  }

  ghost predicate MediumLive(w: Whole, c: int, n: int, pos: int, len: int) {
    c in w.medium && n in U.Live(w.medium[c]) && pos == c + n * PAGE_SIZE && len == U.Live(w.medium[c])[n] * PAGE_SIZE
  }

  ghost predicate LargeLive(w: Whole, i: int, pos: int, len: int) {
    0 < i < |w.table| && w.table[i].kind == LargeArena && pos == ChunkPos(i, 0) && len == w.table[i].size
  }

  /** A user holds the `len` bytes at `pos`. */
  ghost predicate LiveAt(w: Whole, pos: int, len: int) {
    || (exists p, o :: SmallLive(w, p, o, pos, len))
    || (exists c, n :: MediumLive(w, c, n, pos, len))
    || (exists i :: LargeLive(w, i, pos, len))
  }

  /** Different arenas, or no common byte. */
  ghost predicate Apart(a: int, la: int, b: int, lb: int) {
    a / ARENA_SPAN != b / ARENA_SPAN || a + la <= b || b + lb <= a
  }

  /** The block lies in chunk `c`, behind its header page or at least its first bytes. */
  ghost predicate InChunk(t: seq<Arena>, c: int, pos: int, len: int) {
    HasChunk(t, c) && c < pos && 0 < len && pos + len <= c + CHUNK_SIZE
  }

  lemma SmallInChunk(w: Whole, p: int, o: int, pos: int, len: int) returns (c: int)
    requires WholeHolds(w) && SmallLive(w, p, o, pos, len)
    ensures InChunk(w.table, c, pos, len) && c in w.small.pages
  {
    hide R.RunHolds, R.LiveSlots, TableHolds, HasChunk;
    assert S.RunAt(w.small, p);
    var d, i :| d in w.small.pages && i in w.small.pages[d] && i > 0 && S.InPage(p, d, i);
    c := d;
    S.BlockSlot(w.small.runs[p], w.small.lists[p], o);
    R.SlotInPage(w.small.runs[p].elemsize, o);
  }

  lemma MediumInChunk(w: Whole, c: int, n: int, pos: int, len: int)
    requires WholeHolds(w) && MediumLive(w, c, n, pos, len)
    ensures InChunk(w.table, c, pos, len)
  {
    hide S.SmallHolds, TableHolds, HasChunk;
    U.LiveBound(w.medium[c], 1, UNITS, n);
  }

  lemma ChunkArenaOf(t: seq<Arena>, c: int, pos: int, len: int) returns (i: int)
    requires TableHolds(t) && InChunk(t, c, pos, len)
    ensures pos / ARENA_SPAN == i && 0 <= i < ARENAS && t[i].kind != LargeArena && c % CHUNK_SIZE == 0
  {
    var k, j :| ChunkIn(t, k, j, c);
    ChunkWhere(t, k, j, c);
    i := k;
  }

  lemma Multiples(c: int, d: int)
    requires c % CHUNK_SIZE == 0 && d % CHUNK_SIZE == 0 && c != d
    ensures c + CHUNK_SIZE <= d || d + CHUNK_SIZE <= c
  {
  }

  lemma InChunkBounds(t: seq<Arena>, c: int, pos: int, len: int)
    requires InChunk(t, c, pos, len)
    ensures c < pos && 0 < len && pos + len <= c + CHUNK_SIZE
  {
  }

  lemma ByBytes(a: int, la: int, b: int, lb: int)
    requires a + la <= b || b + lb <= a
    ensures Apart(a, la, b, lb)
  {
  }

  lemma LargeArenaOf(i: int)
    ensures ChunkPos(i, 0) / ARENA_SPAN == i
  {
  }

  /** Blocks in different chunks, or one in a chunk and one in an arena of its own. */
  lemma ChunksApart(t: seq<Arena>, c: int, a: int, la: int, d: int, b: int, lb: int)
    requires TableHolds(t) && InChunk(t, c, a, la) && InChunk(t, d, b, lb) && c != d
    ensures Apart(a, la, b, lb)
  {
    var i := ChunkArenaOf(t, c, a, la);
    var j := ChunkArenaOf(t, d, b, lb);
    hide *;
    Multiples(c, d);
    InChunkBounds(t, c, a, la);
    InChunkBounds(t, d, b, lb);
    ByBytes(a, la, b, lb);
  }

  lemma LargeApart(w: Whole, i: int, a: int, la: int, c: int, b: int, lb: int)
    requires WholeHolds(w) && LargeLive(w, i, a, la) && InChunk(w.table, c, b, lb)
    ensures Apart(a, la, b, lb)
  {
    var k := ChunkArenaOf(w.table, c, b, lb);
    LargeArenaOf(i);
  }

  lemma MediumsApart(w: Whole, c: int, n: int, a: int, la: int, d: int, m: int, b: int, lb: int)
    requires WholeHolds(w) && MediumLive(w, c, n, a, la) && MediumLive(w, d, m, b, lb) && (c != d || n != m)
    ensures Apart(a, la, b, lb)
  {
    hide S.SmallHolds, TableHolds, HasChunk;
    if c != d {
      MediumInChunk(w, c, n, a, la);
      MediumInChunk(w, d, m, b, lb);
      ChunksApart(w.table, c, a, la, d, b, lb);
    } else if n < m {
      U.LiveDisjoint(w.medium[c], 1, UNITS, n, m);
    } else {
      U.LiveDisjoint(w.medium[c], 1, UNITS, m, n);
    }
  }

  /** A block in a chunk of runs or pages, with its chunk. */
  lemma ChunkOf(w: Whole, pos: int, len: int) returns (c: int)
    requires WholeHolds(w) && LiveAt(w, pos, len) && !exists i :: LargeLive(w, i, pos, len)
    ensures InChunk(w.table, c, pos, len)
  {
    hide S.SmallHolds, TableHolds, HasChunk, SmallLive, MediumLive, InChunk;
    if exists p, o :: SmallLive(w, p, o, pos, len) {
      var p, o :| SmallLive(w, p, o, pos, len);
      c := SmallInChunk(w, p, o, pos, len);
    } else {
      var d, n :| MediumLive(w, d, n, pos, len);
      MediumInChunk(w, d, n, pos, len);
      c := d;
    }
  }

  lemma SmallMediumApart(w: Whole, p: int, o: int, a: int, la: int, d: int, m: int, b: int, lb: int)
    requires WholeHolds(w) && SmallLive(w, p, o, a, la) && MediumLive(w, d, m, b, lb)
    ensures Apart(a, la, b, lb)
  {
    var c := SmallInChunk(w, p, o, a, la);
    MediumInChunk(w, d, m, b, lb);
    ChunksApart(w.table, c, a, la, d, b, lb);
  }

  lemma SmallsApart(w: Whole, p: int, o: int, a: int, la: int, q: int, u: int, b: int, lb: int)
    requires WholeHolds(w) && SmallLive(w, p, o, a, la) && SmallLive(w, q, u, b, lb) && (p != q || o != u)
    ensures Apart(a, la, b, lb)
  {
    S.BlocksApart(w.small, p, o, q, u);
  }

  /** Any two blocks the users hold have no byte in common, whatever their kinds. */
  lemma LiveApart(w: Whole, a: int, la: int, b: int, lb: int)
    requires WholeHolds(w) && LiveAt(w, a, la) && LiveAt(w, b, lb) && (a != b || la != lb)
    ensures Apart(a, la, b, lb)
  {
    hide WholeHolds, SmallLive, MediumLive, InChunk;
    if exists i :: LargeLive(w, i, a, la) {
      var i :| LargeLive(w, i, a, la);
      if exists j :: LargeLive(w, j, b, lb) {
        var j :| LargeLive(w, j, b, lb);
        LargeArenaOf(i);
        LargeArenaOf(j);
      } else {
        var c := ChunkOf(w, b, lb);
        LargeApart(w, i, a, la, c, b, lb);
      }
    } else if exists j :: LargeLive(w, j, b, lb) {
      var j :| LargeLive(w, j, b, lb);
      var c := ChunkOf(w, a, la);
      LargeApart(w, j, b, lb, c, a, la);
    } else {
      ChunkedApart(w, a, la, b, lb);
    }
  }

  lemma ChunkedApart(w: Whole, a: int, la: int, b: int, lb: int)
    requires WholeHolds(w) && LiveAt(w, a, la) && LiveAt(w, b, lb) && (a != b || la != lb)
    requires !(exists i :: LargeLive(w, i, a, la)) && !(exists i :: LargeLive(w, i, b, lb))
    ensures Apart(a, la, b, lb)
  {
    hide WholeHolds, InChunk, Apart;
    if exists p, o :: SmallLive(w, p, o, a, la) {
      var p, o :| SmallLive(w, p, o, a, la);
      if exists q, u :: SmallLive(w, q, u, b, lb) {
        var q, u :| SmallLive(w, q, u, b, lb);
        SmallsApart(w, p, o, a, la, q, u, b, lb);
      } else {
        var d, m :| MediumLive(w, d, m, b, lb);
        SmallMediumApart(w, p, o, a, la, d, m, b, lb);
      }
    } else {
      var c, n :| MediumLive(w, c, n, a, la);
      if exists q, u :: SmallLive(w, q, u, b, lb) {
        var q, u :| SmallLive(w, q, u, b, lb);
        SmallMediumApart(w, q, u, b, lb, c, n, a, la);
        ApartSymmetric(a, la, b, lb);
      } else {
        var d, m :| MediumLive(w, d, m, b, lb);
        MediumsApart(w, c, n, a, la, d, m, b, lb);
      }
    }
  }

  lemma ApartSymmetric(a: int, la: int, b: int, lb: int)
    ensures Apart(a, la, b, lb) <==> Apart(b, lb, a, la)
  {
  }

  // ----- steps -----

  /** The same blocks are held. */
  ghost predicate SameLive(w: Whole, w': Whole) {
    forall pos, len :: LiveAt(w', pos, len) <==> LiveAt(w, pos, len)
  }

  ghost predicate SameLarge(t: seq<Arena>, t': seq<Arena>) {
    |t'| == |t| && forall i :: 0 <= i < |t| ==> (t'[i].kind == LargeArena || t[i].kind == LargeArena ==> t'[i] == t[i])
  }

  ghost predicate SameBlocks(s: S.Small, s': S.Small) {
    forall p, o :: S.Block(s', p, o) <==> S.Block(s, p, o)
  }

  ghost predicate SameSizes(s: S.Small, s': S.Small) {
    forall p, o :: S.Block(s', p, o) && S.Block(s, p, o) ==> s'.runs[p].elemsize == s.runs[p].elemsize
  }

  lemma SameLiveFrom(w: Whole, w': Whole)
    requires SameLarge(w.table, w'.table) && SameBlocks(w.small, w'.small) && SameSizes(w.small, w'.small)
    requires forall c, n, pos, len :: MediumLive(w', c, n, pos, len) <==> MediumLive(w, c, n, pos, len)
    ensures SameLive(w, w')
  {
    hide MediumLive;
    forall pos, len ensures LiveAt(w', pos, len) <==> LiveAt(w, pos, len) {
      forall p, o ensures SmallLive(w', p, o, pos, len) <==> SmallLive(w, p, o, pos, len) {
        SmallSame(w, w', p, o, pos, len);
      }
      forall i ensures LargeLive(w', i, pos, len) <==> LargeLive(w, i, pos, len) { LargeSame(w, w', i, pos, len); }
    }
  }

  lemma SmallSame(w: Whole, w': Whole, p: int, o: int, pos: int, len: int)
    requires (S.Block(w'.small, p, o) <==> S.Block(w.small, p, o)) && SameSizes(w.small, w'.small)
    ensures SmallLive(w', p, o, pos, len) <==> SmallLive(w, p, o, pos, len)
  {
  }

  lemma LargeSame(w: Whole, w': Whole, i: int, pos: int, len: int)
    requires SameLarge(w.table, w'.table)
    ensures LargeLive(w', i, pos, len) <==> LargeLive(w, i, pos, len)
  {
  }

  /** new_chunk and init_chunk for runs. */
  lemma NewSmallChunk(w: Whole)
    requires WholeHolds(w) && NewChunkPos(w.table) != SHM_NULL
    ensures var c := NewChunkPos(w.table);
      var w' := w.(small := w.small.(pages := w.small.pages[c := {0}]), table := WithNewChunk(w.table));
      && c > 0 && c % CHUNK_SIZE == 0 && c !in w.small.pages && c !in w.medium && WholeHolds(w') && SameLive(w, w')
      && 0 <= c / ARENA_SPAN < ARENAS && (S.OneSpare(w.small) ==> S.OneSpare(w'.small))
  {
    var c := NewChunkPos(w.table);
    NewChunkHolds(w.table);
    NewChunkIndex(w.table);
    S.NewChunkHolds(w.small, c);
    NewChunkLarge(w.table);
    hide S.SmallHolds, TableHolds, HasChunk, WithNewChunk, NewChunkPos;
    var w' := w.(small := w.small.(pages := w.small.pages[c := {0}]), table := WithNewChunk(w.table));
    SameLiveFrom(w, w');
  }

  lemma NewMediumChunk(w: Whole, u: seq<U.Block>)
    requires WholeHolds(w) && NewChunkPos(w.table) != SHM_NULL && u == [U.Block(1, UNITS - 1, false)]
    ensures var c := NewChunkPos(w.table);
      var w' := w.(medium := w.medium[c := u], table := WithNewChunk(w.table));
      && c > 0 && c !in w.small.pages && c !in w.medium && WholeHolds(w') && SameLive(w, w')
      && 0 <= c / ARENA_SPAN < ARENAS
  {
    var c := NewChunkPos(w.table);
    NewChunkHolds(w.table);
    NewChunkIndex(w.table);
    NewChunkLarge(w.table);
    U.OneBlockViews(u[0]);
    hide S.SmallHolds, TableHolds, HasChunk, WithNewChunk, NewChunkPos;
    var w' := w.(medium := w.medium[c := u], table := WithNewChunk(w.table));
    assert U.Live(u) == map[];
    SameLiveFrom(w, w');
  }

  lemma NewChunkIndex(t: seq<Arena>)
    requires TableHolds(t)
    ensures 0 <= NewChunkPos(t) / ARENA_SPAN < ARENAS
  {
    assert ArenaHolds(t[0], 0);
  }

  lemma NewChunkLarge(t: seq<Arena>)
    requires TableHolds(t)
    ensures SameLarge(t, WithNewChunk(t))
  {
    assert ArenaHolds(t[0], 0);
  }

  /** `w'` is `w` with one block more, at `r` and of length `len`. */
  ghost predicate OneMore(w: Whole, w': Whole, r: int, len: int) {
    && (forall l :: !LiveAt(w, r, l)) && (forall l :: LiveAt(w', r, l) <==> l == len)
    && (forall pos, l :: pos != r ==> (LiveAt(w', pos, l) <==> LiveAt(w, pos, l)))
  }

  lemma LargePositive(w: Whole, i: int, pos: int, len: int)
    requires WholeHolds(w) && LargeLive(w, i, pos, len)
    ensures len > 0
  {
    assert ArenaHolds(w.table[i], i);
  }

  /** Whatever block is held at the position of a held small block is that one. */
  lemma SmallOnly(w: Whole, p: int, o: int, r: int, len: int)
    requires WholeHolds(w) && SmallLive(w, p, o, r, len)
    ensures forall q, u, l :: SmallLive(w, q, u, r, l) ==> q == p && u == o
    ensures forall c, n, l :: !MediumLive(w, c, n, r, l)
    ensures forall i, l :: !LargeLive(w, i, r, l)
  {
    hide WholeHolds, SmallLive, MediumLive, LargeLive;
    var d := SmallInChunk(w, p, o, r, len);
    forall q, u, l | SmallLive(w, q, u, r, l) ensures q == p && u == o {
      var e := SmallInChunk(w, q, u, r, l);
      if q != p || u != o { SmallsApart(w, p, o, r, len, q, u, r, l); }
    }
    forall c, n, l ensures !MediumLive(w, c, n, r, l) {
      if MediumLive(w, c, n, r, l) {
        MediumInChunk(w, c, n, r, l);
        SmallMediumApart(w, p, o, r, len, c, n, r, l);
      }
    }
    forall i, l ensures !LargeLive(w, i, r, l) {
      if LargeLive(w, i, r, l) {
        LargePositive(w, i, r, l);
        LargeApart(w, i, r, l, d, r, len);
      }
    }
  }

  lemma MediumOnly(w: Whole, c: int, n: int, r: int, len: int)
    requires WholeHolds(w) && MediumLive(w, c, n, r, len)
    ensures forall q, u, l :: !SmallLive(w, q, u, r, l)
    ensures forall d, m, l :: MediumLive(w, d, m, r, l) ==> d == c && m == n
    ensures forall i, l :: !LargeLive(w, i, r, l)
  {
    hide WholeHolds, SmallLive, MediumLive, LargeLive;
    MediumInChunk(w, c, n, r, len);
    forall q, u, l ensures !SmallLive(w, q, u, r, l) {
      if SmallLive(w, q, u, r, l) { SmallOnly(w, q, u, r, l); }
    }
    forall d, m, l | MediumLive(w, d, m, r, l) ensures d == c && m == n {
      MediumInChunk(w, d, m, r, l);
      if d != c || m != n { MediumsApart(w, c, n, r, len, d, m, r, l); }
    }
    forall i, l ensures !LargeLive(w, i, r, l) {
      if LargeLive(w, i, r, l) {
        LargePositive(w, i, r, l);
        LargeApart(w, i, r, l, c, r, len);
      }
    }
  }

  lemma LargeOnly(w: Whole, i: int, r: int, len: int)
    requires WholeHolds(w) && LargeLive(w, i, r, len)
    ensures forall q, u, l :: !SmallLive(w, q, u, r, l)
    ensures forall d, m, l :: !MediumLive(w, d, m, r, l)
    ensures forall j, l :: LargeLive(w, j, r, l) ==> j == i
  {
    hide WholeHolds, SmallLive, MediumLive;
    forall q, u, l ensures !SmallLive(w, q, u, r, l) {
      if SmallLive(w, q, u, r, l) { SmallOnly(w, q, u, r, l); }
    }
    forall d, m, l ensures !MediumLive(w, d, m, r, l) {
      if MediumLive(w, d, m, r, l) { MediumOnly(w, d, m, r, l); }
    }
    LargeArenaOf(i);
    forall j, l | LargeLive(w, j, r, l) ensures j == i { LargeArenaOf(j); }
  }

  lemma ExtraSmall(w: Whole, w': Whole, p: int, o: int, r: int, len: int)
    requires WholeHolds(w') && SmallLive(w', p, o, r, len) && !S.Block(w.small, p, o)
    requires w'.medium == w.medium && SameLarge(w.table, w'.table) && SameSizes(w.small, w'.small)
    requires forall q, u :: S.Block(w'.small, q, u) <==> S.Block(w.small, q, u) || (q == p && u == o)
    ensures OneMore(w, w', r, len)
  {
    SmallOnly(w', p, o, r, len);
    hide WholeHolds, S.Block;
    forall q, u, pos, l | !(q == p && u == o) ensures SmallLive(w', q, u, pos, l) <==> SmallLive(w, q, u, pos, l) {
      SmallSame(w, w', q, u, pos, l);
    }
    forall c, n, pos, l ensures MediumLive(w', c, n, pos, l) <==> MediumLive(w, c, n, pos, l) { }
    forall i, pos, l ensures LargeLive(w', i, pos, l) <==> LargeLive(w, i, pos, l) { LargeSame(w, w', i, pos, l); }
    NotThere(w, p, o);
    hide LargeLive, MediumLive;
    forall l ensures !LiveAt(w, r, l) { }
    forall pos, l | pos != r ensures LiveAt(w', pos, l) <==> LiveAt(w, pos, l) { OtherPos(w', p, o, r, len, pos, l); }
    forall l ensures LiveAt(w', r, l) <==> l == len {
      if l == len { assert SmallLive(w', p, o, r, l); } SameLength(w', p, o, r, len, l);
    }
  }

  lemma NotThere(w: Whole, p: int, o: int)
    requires !S.Block(w.small, p, o)
    ensures forall pos, l :: !SmallLive(w, p, o, pos, l)
  {
  }

  lemma OtherPos(w: Whole, p: int, o: int, r: int, len: int, pos: int, l: int)
    requires SmallLive(w, p, o, r, len) && pos != r
    ensures !SmallLive(w, p, o, pos, l)
  {
  }

  lemma SameLength(w: Whole, p: int, o: int, r: int, len: int, l: int)
    requires SmallLive(w, p, o, r, len)
    ensures SmallLive(w, p, o, r, l) ==> l == len
  {
  }

  lemma ExtraMedium(w: Whole, w': Whole, c: int, n: int, r: int, len: int)
    requires WholeHolds(w') && MediumLive(w', c, n, r, len) && (forall pos, l :: !MediumLive(w, c, n, pos, l))
    requires w'.small == w.small && SameLarge(w.table, w'.table)
    requires forall d, m, pos, l ::
      !(d == c && m == n) ==> (MediumLive(w', d, m, pos, l) <==> MediumLive(w, d, m, pos, l))
    ensures OneMore(w, w', r, len)
  {
    MediumOnly(w', c, n, r, len);
    hide WholeHolds;
    forall q, u, pos, l ensures SmallLive(w', q, u, pos, l) <==> SmallLive(w, q, u, pos, l) { }
    forall i, pos, l ensures LargeLive(w', i, pos, l) <==> LargeLive(w, i, pos, l) { LargeSame(w, w', i, pos, l); }
    MediumPlace(w', c, n, r, len);
    hide SmallLive, LargeLive, MediumLive;
    forall l ensures !LiveAt(w, r, l) { }
    forall pos, l | pos != r ensures LiveAt(w', pos, l) <==> LiveAt(w, pos, l) { }
    forall l ensures LiveAt(w', r, l) <==> l == len { if l == len { assert MediumLive(w', c, n, r, l); } }
  }

  lemma MediumPlace(w: Whole, c: int, n: int, r: int, len: int)
    requires MediumLive(w, c, n, r, len)
    ensures forall pos, l :: MediumLive(w, c, n, pos, l) <==> pos == r && l == len
  {
  }

  lemma ExtraLarge(w: Whole, w': Whole, i: int, r: int, len: int)
    requires WholeHolds(w') && LargeLive(w', i, r, len) && |w.table| == |w'.table| && w.table[i].kind != LargeArena
    requires w'.small == w.small && w'.medium == w.medium
    requires forall j :: 0 <= j < |w.table| && j != i ==> w'.table[j] == w.table[j]
    ensures OneMore(w, w', r, len)
  {
    LargeOnly(w', i, r, len);
    hide WholeHolds;
    forall q, u, pos, l ensures SmallLive(w', q, u, pos, l) <==> SmallLive(w, q, u, pos, l) { }
    forall c, n, pos, l ensures MediumLive(w', c, n, pos, l) <==> MediumLive(w, c, n, pos, l) { }
    forall j, pos, l | j != i ensures LargeLive(w', j, pos, l) <==> LargeLive(w, j, pos, l) { }
    forall pos, l ensures !LargeLive(w, i, pos, l) && (LargeLive(w', i, pos, l) <==> pos == r && l == len) { }
    hide SmallLive, LargeLive, MediumLive;
    forall l ensures !LiveAt(w, r, l) { }
    forall pos, l | pos != r ensures LiveAt(w', pos, l) <==> LiveAt(w, pos, l) { }
    forall l ensures LiveAt(w', r, l) <==> l == len { if l == len { assert LargeLive(w', i, r, l); } }
  }

  // ----- steps that change one part -----

  lemma SmallStep(w: Whole, s: S.Small)
    requires WholeHolds(w) && S.SmallHolds(s) && s.pages.Keys == w.small.pages.Keys
    ensures WholeHolds(w.(small := s))
    ensures SameBlocks(w.small, s) && SameSizes(w.small, s) ==> SameLive(w, w.(small := s))
  {
    hide S.SmallHolds, TableHolds, HasChunk;
    if SameBlocks(w.small, s) && SameSizes(w.small, s) { SameLiveFrom(w, w.(small := s)); }
  }

  /** A small run has given one slot. */
  lemma SmallTaken(w: Whole, s: S.Small, p: int, o: int, len: int)
    requires WholeHolds(w) && S.SmallHolds(s) && s.pages.Keys == w.small.pages.Keys && SameSizes(w.small, s)
    requires !S.Block(w.small, p, o)
    requires (forall q, u :: S.Block(s, q, u) <==> S.Block(w.small, q, u) || (q == p && u == o))
    requires p in s.runs && len == s.runs[p].elemsize
    ensures WholeHolds(w.(small := s)) && OneMore(w, w.(small := s), p + o, len)
  {
    hide S.SmallHolds, TableHolds, HasChunk, S.Block;
    SmallStep(w, s);
    ExtraSmall(w, w.(small := s), p, o, p + o, len);
  }

  /** A slot has gone back. */
  lemma SmallGiven(w: Whole, s: S.Small, p: int, o: int)
    requires WholeHolds(w) && S.SmallHolds(s) && s.pages.Keys == w.small.pages.Keys && SameSizes(s, w.small)
    requires S.Block(w.small, p, o)
    requires forall q, u :: S.Block(s, q, u) <==> S.Block(w.small, q, u) && !(q == p && u == o)
    ensures WholeHolds(w.(small := s)) && OneMore(w.(small := s), w, p + o, w.small.runs[p].elemsize)
  {
    hide S.SmallHolds, TableHolds, HasChunk;
    SmallStep(w, s);
    ExtraSmall(w.(small := s), w, p, o, p + o, w.small.runs[p].elemsize);
  }

  lemma TakeSizes(s: S.Small, p: int)
    requires S.CanTake(s, p)
    ensures var s' := S.Take(s, p);
      SameSizes(s, s') && s'.pages == s.pages && p in s'.runs && s'.runs[p].elemsize == s.runs[p].elemsize
  {
    hide S.Block;
  }

  lemma SameThenMore(w0: Whole, w1: Whole, w2: Whole, r: int, len: int)
    requires SameLive(w0, w1) && OneMore(w1, w2, r, len)
    ensures OneMore(w0, w2, r, len)
  {
    hide LiveAt;
  }

  lemma LessThenSame(w0: Whole, w1: Whole, w2: Whole, r: int, len: int)
    requires OneMore(w1, w0, r, len) && SameLive(w1, w2)
    ensures OneMore(w2, w0, r, len)
  {
    hide LiveAt;
  }
}
