/** The shared table of arenas, src/shm_context.c: which chunks of which arenas are in use. */
module ArenaTable {
  import opened Basics
  import opened MappingCache

  /** SHM_ARENA_CHUNK_SIZE */
  const ARENA_CHUNKS: int := 8
  const ARENA_UNIT: int := 0x800000
  /** The first chunk of the context's arena holds the context itself; its entry is not a position. */
  const RESERVED: int := 1

  datatype Arena = Arena(kind: ArenaKind, index: int, size: int, used: int, chunks: seq<int>)

  const NO_CHUNKS: seq<int> := [0, 0, 0, 0, 0, 0, 0, 0]
  const CLEARED := Arena(EmptyArena, 0, 0, 0, NO_CHUNKS)

  /** index2pos for the j-th chunk of an arena. */
  function ChunkPos(i: int, j: int): int {
    i * 0x1_0000_0000 + j * CHUNK_SIZE
  }

  lemma ChunkPosUnique(i: int, j: int, i': int, j': int)
    requires 0 <= j < ARENA_CHUNKS && 0 <= j' < ARENA_CHUNKS && ChunkPos(i, j) == ChunkPos(i', j')
    ensures i == i' && j == j'
  {
  }

  /** Number of entries in use. */
  function Count(chunks: seq<int>): (n: nat)
    ensures n <= |chunks|
  {
    if chunks == [] then 0
    else Count(chunks[..|chunks| - 1]) + if chunks[|chunks| - 1] != SHM_NULL then 1 else 0
  }

  lemma {:induction false} CountUpdate(chunks: seq<int>, j: nat, pos: int)
    requires j < |chunks|
    ensures var more, less := if pos != SHM_NULL then 1 else 0, if chunks[j] != SHM_NULL then 1 else 0;
      Count(chunks[j := pos]) == Count(chunks) + more - less
  {
    var n := |chunks| - 1;
    if j < n {
      CountUpdate(chunks[..n], j, pos);
      assert chunks[j := pos][..n] == chunks[..n][j := pos];
    } else {
      assert chunks[j := pos][..n] == chunks[..n];
    }
  }

  /** No entry is in use exactly if the count is 0, and all are exactly if it is the length. */
  lemma {:induction false} CountExtremes(chunks: seq<int>)
    ensures Count(chunks) == 0 <==> forall j :: 0 <= j < |chunks| ==> chunks[j] == SHM_NULL
    ensures Count(chunks) == |chunks| <==> forall j :: 0 <= j < |chunks| ==> chunks[j] != SHM_NULL
  {
    if chunks != [] {
      var n := |chunks| - 1;
      CountExtremes(chunks[..n]);
      assert forall j :: 0 <= j < n ==> chunks[..n][j] == chunks[j];
    }
  }

  /** What a row of the table says about itself. */
  ghost predicate ArenaHolds(a: Arena, i: int) {
    && |a.chunks| == ARENA_CHUNKS && a.used == Count(a.chunks)
    && (a.kind == ContextArena <==> i == 0)
    && (a.kind == EmptyArena ==> a == CLEARED)
    && (a.kind != EmptyArena ==> a.index == i)
    && (a.kind == ContextArena || a.kind == ChunkArena ==> a.size == ARENA_UNIT)
    && (a.kind == LargeArena ==> a.chunks == NO_CHUNKS && a.size > 0)
    && (forall j :: 0 <= j < ARENA_CHUNKS && !(i == 0 && j == 0) ==>
      a.chunks[j] == SHM_NULL || a.chunks[j] == ChunkPos(i, j))
    && (i == 0 ==> a.chunks[0] == RESERVED)
  }

  ghost predicate TableHolds(t: seq<Arena>) {
    && |t| == ARENAS
    && (forall i :: 0 <= i < |t| ==> ArenaHolds(t[i], i))
    && (forall i :: 0 <= i < |t| && t[i].kind == ChunkArena ==> t[i].used > 0)
  }

  ghost predicate ChunkIn(t: seq<Arena>, i: int, j: int, c: int) {
    0 <= i < |t| && 0 <= j < |t[i].chunks| && !(i == 0 && j == 0) && t[i].chunks[j] == c && c != SHM_NULL
  }

  /** `c` is the position of a chunk in use. */
  ghost predicate HasChunk(t: seq<Arena>, c: int) {
    exists i, j :: ChunkIn(t, i, j, c)
  }

  /** A chunk in use is where its entry says. */
  lemma ChunkWhere(t: seq<Arena>, i: int, j: int, c: int)
    requires TableHolds(t) && ChunkIn(t, i, j, c)
    ensures c == ChunkPos(i, j) && 0 <= j < ARENA_CHUNKS && 0 <= i < ARENAS && c > 0 && c % CHUNK_SIZE == 0
    ensures t[i].kind == ContextArena || t[i].kind == ChunkArena
  {
    assert ArenaHolds(t[i], i);
  }

  /** Entry the search of new_arena_chunk ends at: the first free one from `j` on. */
  function FreeEntry(chunks: seq<int>, j: nat): (r: nat)
    requires j <= |chunks|
    ensures j <= r <= |chunks| && (r < |chunks| ==> chunks[r] == SHM_NULL)
    ensures forall k :: j <= k < r ==> chunks[k] != SHM_NULL
    decreases |chunks| - j
  {
    if j == |chunks| || chunks[j] == SHM_NULL then j else FreeEntry(chunks, j + 1)
  }

  function FirstEntry(a: Arena): nat { if a.kind == ContextArena then 1 else 0 }

  predicate HasRoom(a: Arena) {
    FirstEntry(a) <= |a.chunks| && FreeEntry(a.chunks, FirstEntry(a)) < |a.chunks|
  }

  /** The first unused row after the context's. */
  function FirstUnused(t: seq<Arena>, i: nat): (r: nat)
    requires i <= |t|
    ensures i <= r <= |t| && (r < |t| ==> t[r].kind == EmptyArena) && forall k :: i <= k < r ==> t[k].kind != EmptyArena
    decreases |t| - i
  {
    if i == |t| || t[i].kind == EmptyArena then i else FirstUnused(t, i + 1)
  }

  function WithChunk(a: Arena, i: int): Arena
    requires HasRoom(a)
  {
    var j := FreeEntry(a.chunks, FirstEntry(a));
    a.(chunks := a.chunks[j := ChunkPos(i, j)], used := a.used + 1)
  }

  function FreshArena(kind: ArenaKind, i: int, size: int): Arena {
    Arena(kind, i, size, 0, NO_CHUNKS)
  }

  /** Where new_chunk puts a chunk as it is written: in the context's arena, else in a new one. 0 if
      the table is full. */
  function NewChunkPos(t: seq<Arena>): int
    requires |t| == ARENAS
  {
    if HasRoom(t[0]) then ChunkPos(0, FreeEntry(t[0].chunks, FirstEntry(t[0])))
    else if FirstUnused(t, 1) < ARENAS then ChunkPos(FirstUnused(t, 1), 0)
    else SHM_NULL
  }

  /** new_chunk gives nothing: all entries of the context's arena behind the context itself are in use, and
      there is no memory for a new arena or no unused row. Chunk arenas do not matter. */
  ghost predicate NoChunk(t: seq<Arena>, mapped: bool)
    requires |t| == ARENAS
  {
    && (forall j :: 1 <= j < |t[0].chunks| ==> t[0].chunks[j] != SHM_NULL)
    && (!mapped || forall i :: 1 <= i < ARENAS ==> t[i].kind != EmptyArena)
  }

  /** The table after new_chunk. */
  function WithNewChunk(t: seq<Arena>): seq<Arena>
    requires |t| == ARENAS
  {
    if HasRoom(t[0]) then t[0 := WithChunk(t[0], 0)]
    else
      var e := FirstUnused(t, 1);
      if e < ARENAS then t[e := WithChunk(FreshArena(ChunkArena, e, ARENA_UNIT), e)] else t
  }

  /** The table after a request that needs a new chunk or does not. */
  ghost function TableAfter(t: seq<Arena>, needed: bool, mapped: bool): seq<Arena>
    requires |t| == ARENAS
  {
    if needed && !NoChunk(t, mapped) then WithNewChunk(t) else t
  }

  lemma TableAfterIs(t: seq<Arena>, mapped: bool)
    requires |t| == ARENAS
    ensures TableAfter(t, false, mapped) == t && (NoChunk(t, mapped) ==> TableAfter(t, true, mapped) == t)
    ensures !NoChunk(t, mapped) ==> TableAfter(t, true, mapped) == WithNewChunk(t)
  {
  }

  lemma RoomExact(a: Arena, i: int)
    requires ArenaHolds(a, i)
    ensures HasRoom(a) <==> Count(a.chunks) < ARENA_CHUNKS
  {
    CountExtremes(a.chunks);
    var j := FreeEntry(a.chunks, FirstEntry(a));
    if j < ARENA_CHUNKS { assert a.chunks[j] == SHM_NULL; }
  }

  lemma ContextRoom(t: seq<Arena>)
    requires TableHolds(t)
    ensures HasRoom(t[0]) <==> exists j :: 1 <= j < ARENA_CHUNKS && t[0].chunks[j] == SHM_NULL
    ensures t[0].kind == ContextArena && |t[0].chunks| == ARENA_CHUNKS
    ensures HasRoom(t[0]) ==> 1 <= FreeEntry(t[0].chunks, 1) < ARENA_CHUNKS && FirstEntry(t[0]) == 1
  {
    assert ArenaHolds(t[0], 0);
    var j := FreeEntry(t[0].chunks, 1);
    if j < ARENA_CHUNKS { assert t[0].chunks[j] == SHM_NULL; }
  }

  /** When new_chunk gives nothing, and where it puts a chunk otherwise: in the first free entry of the
      context's arena behind the context itself, and if there is none in the first entry of the first
      unused row. */
  lemma NewChunkExact(t: seq<Arena>)
    requires TableHolds(t)
    ensures NewChunkPos(t) == SHM_NULL <==>
      && (forall j :: 1 <= j < ARENA_CHUNKS ==> t[0].chunks[j] != SHM_NULL)
      && (forall i :: 1 <= i < ARENAS ==> t[i].kind != EmptyArena)
    ensures forall mapped :: NoChunk(t, mapped) <==>
      && (forall j :: 1 <= j < ARENA_CHUNKS ==> t[0].chunks[j] != SHM_NULL)
      && (!mapped || forall i :: 1 <= i < ARENAS ==> t[i].kind != EmptyArena)
    ensures HasRoom(t[0]) <==> exists j :: 1 <= j < ARENA_CHUNKS && t[0].chunks[j] == SHM_NULL
    ensures forall j: nat :: 1 <= j < ARENA_CHUNKS && t[0].chunks[j] == SHM_NULL ==>
      (forall k :: 1 <= k < j ==> t[0].chunks[k] != SHM_NULL) ==>
        && NewChunkPos(t) == j * CHUNK_SIZE
        && WithNewChunk(t) ==
          t[0 := t[0].(chunks := t[0].chunks[j := j * CHUNK_SIZE], used := t[0].used + 1)]
    ensures forall i: nat :: 1 <= i < ARENAS && t[i].kind == EmptyArena ==>
      (forall j :: 1 <= j < ARENA_CHUNKS ==> t[0].chunks[j] != SHM_NULL) ==>
      (forall k :: 1 <= k < i ==> t[k].kind != EmptyArena) ==>
        && NewChunkPos(t) == i * 0x1_0000_0000
        && WithNewChunk(t) == t[i := Arena(ChunkArena, i, ARENA_UNIT, 1, [i * 0x1_0000_0000, 0, 0, 0, 0, 0, 0, 0])]
  {
    ContextRoom(t);
    NewChunkIs(t);
    hide HasRoom, NewChunkPos, WithNewChunk, ChunkPos, WithChunk;
  }

  lemma NewChunkIs(t: seq<Arena>)
    requires TableHolds(t)
    ensures HasRoom(t[0]) ==>
      var j := FreeEntry(t[0].chunks, 1);
      && j < ARENA_CHUNKS && NewChunkPos(t) == j * CHUNK_SIZE != SHM_NULL
      && WithNewChunk(t) == t[0 := t[0].(chunks := t[0].chunks[j := j * CHUNK_SIZE], used := t[0].used + 1)]
    ensures !HasRoom(t[0]) ==>
      var i := FirstUnused(t, 1);
      if i == ARENAS then NewChunkPos(t) == SHM_NULL
      else
        && NewChunkPos(t) == i * 0x1_0000_0000 != SHM_NULL
        && WithNewChunk(t) == t[i := Arena(ChunkArena, i, ARENA_UNIT, 1, [i * 0x1_0000_0000, 0, 0, 0, 0, 0, 0, 0])]
  {
    ContextRoom(t);
    var f, e := FreeEntry(t[0].chunks, 1), FirstUnused(t, 1);
    if HasRoom(t[0]) {
      PosFacts(0, f);
    } else if e < ARENAS {
      PosFacts(e, 0);
      FreshExact(e);
    }
  }

  lemma FreshExact(e: nat)
    requires e > 0
    ensures HasRoom(FreshArena(ChunkArena, e, ARENA_UNIT))
    ensures WithChunk(FreshArena(ChunkArena, e, ARENA_UNIT), e) ==
      Arena(ChunkArena, e, ARENA_UNIT, 1, [e * 0x1_0000_0000, 0, 0, 0, 0, 0, 0, 0])
  {
    FreshArenaHolds(ChunkArena, e, ARENA_UNIT);
  }

  /** A row that gains a chunk: it gains exactly that one. */
  lemma WithChunkHolds(a: Arena, i: int)
    requires ArenaHolds(a, i) && (a.kind == ContextArena || a.kind == ChunkArena) && HasRoom(a)
    ensures var j := FreeEntry(a.chunks, FirstEntry(a));
      && ArenaHolds(WithChunk(a, i), i) && !(i == 0 && j == 0) && 0 <= j < ARENA_CHUNKS && a.chunks[j] == SHM_NULL
      && WithChunk(a, i).chunks == a.chunks[j := ChunkPos(i, j)] && WithChunk(a, i).used > 0
  {
    var j := FreeEntry(a.chunks, FirstEntry(a));
    CountUpdate(a.chunks, j, ChunkPos(i, j));
    if i == 0 { assert FirstEntry(a) == 1; }
  }

  lemma FreshArenaHolds(kind: ArenaKind, i: int, size: int)
    requires i > 0 && (kind == ChunkArena || kind == LargeArena) && size > 0
    requires (kind == ChunkArena ==> size == ARENA_UNIT)
    ensures ArenaHolds(FreshArena(kind, i, size), i) && HasRoom(FreshArena(kind, i, size))
    ensures FreeEntry(NO_CHUNKS, 0) == 0
  {
    CountExtremes(NO_CHUNKS);
  }

  /** new_chunk takes a position no chunk has, adds exactly that chunk, and keeps the counts right. */
  lemma NewChunkHolds(t: seq<Arena>)
    requires TableHolds(t) && NewChunkPos(t) != SHM_NULL
    ensures TableHolds(WithNewChunk(t)) && !HasChunk(t, NewChunkPos(t)) && NewChunkPos(t) > 0
    ensures NewChunkPos(t) % CHUNK_SIZE == 0
    ensures forall c :: HasChunk(WithNewChunk(t), c) <==> HasChunk(t, c) || c == NewChunkPos(t)
  {
    assert |t| == ARENAS;
    hide HasChunk, TableHolds, HasRoom, WithChunk, ChunkPos;
    if HasRoom(t[0]) {
      InContext(t);
      PosFacts(0, FreeEntry(t[0].chunks, FirstEntry(t[0])));
    } else {
      var e := FirstUnused(t, 1);
      PosFacts(e, 0);
      if e < ARENAS { InFresh(t); }
    }
  }

  lemma PosFacts(i: int, j: int)
    requires i >= 0 && j >= 0
    ensures ChunkPos(i, j) % CHUNK_SIZE == 0 && (i > 0 || j > 0 ==> ChunkPos(i, j) > 0)
  {
    assert ChunkPos(i, j) == CHUNK_SIZE * (4096 * i + j);
  }

  lemma InContext(t: seq<Arena>)
    requires TableHolds(t) && HasRoom(t[0])
    ensures var j := FreeEntry(t[0].chunks, FirstEntry(t[0])); var t' := t[0 := WithChunk(t[0], 0)];
      && TableHolds(t') && !HasChunk(t, ChunkPos(0, j)) && 0 < j < ARENA_CHUNKS
      && forall c :: HasChunk(t', c) <==> HasChunk(t, c) || c == ChunkPos(0, j)
  {
    assert ArenaHolds(t[0], 0);
    WithChunkHolds(t[0], 0);
    hide HasChunk, TableHolds, ArenaHolds, WithChunk;
    ChunkAdded(t, 0, FreeEntry(t[0].chunks, FirstEntry(t[0])), WithChunk(t[0], 0));
  }

  lemma InFresh(t: seq<Arena>)
    requires TableHolds(t) && FirstUnused(t, 1) < ARENAS
    ensures var e := FirstUnused(t, 1); var a := FreshArena(ChunkArena, e, ARENA_UNIT);
      && HasRoom(a) && TableHolds(t[e := WithChunk(a, e)]) && !HasChunk(t, ChunkPos(e, 0))
      && forall c :: HasChunk(t[e := WithChunk(a, e)], c) <==> HasChunk(t, c) || c == ChunkPos(e, 0)
  {
    var e := FirstUnused(t, 1);
    assert ArenaHolds(t[e], e);
    var a := FreshArena(ChunkArena, e, ARENA_UNIT);
    FreshArenaHolds(ChunkArena, e, ARENA_UNIT);
    WithChunkHolds(a, e);
    assert a.chunks == t[e].chunks;
    hide HasChunk, TableHolds, ArenaHolds, WithChunk;
    ChunkAdded(t, e, 0, WithChunk(a, e));
  }

  lemma ChunkAdded(t: seq<Arena>, i: nat, j: nat, a: Arena)
    requires TableHolds(t) && i < ARENAS && j < ARENA_CHUNKS && !(i == 0 && j == 0) && t[i].chunks[j] == SHM_NULL
    requires ArenaHolds(a, i) && a.chunks == t[i].chunks[j := ChunkPos(i, j)] && a.used > 0
    ensures TableHolds(t[i := a]) && !HasChunk(t, ChunkPos(i, j))
    ensures forall c :: HasChunk(t[i := a], c) <==> HasChunk(t, c) || c == ChunkPos(i, j)
  {
    assert |t[i].chunks| == |a.chunks| == ARENA_CHUNKS by { assert ArenaHolds(t[i], i); }
    hide ArenaHolds;
    if HasChunk(t, ChunkPos(i, j)) {
      var i', j' :| ChunkIn(t, i', j', ChunkPos(i, j));
      ChunkWhere(t, i', j', ChunkPos(i, j));
      ChunkPosUnique(i, j, i', j');
    }
    PosFacts(i, j);
    hide TableHolds, HasChunk, ChunkPos;
    EntryAdded(t, i, j, a, ChunkPos(i, j));
  }

  lemma EntryAdded(t: seq<Arena>, i: nat, j: nat, a: Arena, pos: int)
    requires i < |t| && j < |t[i].chunks| && !(i == 0 && j == 0) && t[i].chunks[j] == SHM_NULL != pos
    requires a.chunks == t[i].chunks[j := pos]
    ensures forall c :: HasChunk(t[i := a], c) <==> HasChunk(t, c) || c == pos
  {
    var t' := t[i := a];
    forall c ensures HasChunk(t', c) <==> HasChunk(t, c) || c == pos {
      if HasChunk(t', c) && c != pos {
        var i', j' :| ChunkIn(t', i', j', c);
        assert ChunkIn(t, i', j', c);
      }
      if HasChunk(t, c) {
        var i', j' :| ChunkIn(t, i', j', c);
        assert ChunkIn(t', i', j', c);
      }
      if c == pos { assert ChunkIn(t', i, j, c); }
    }
  }

  /** The row's last chunk may have gone: then the row is cleared. */
  lemma ChunkRemoved(t: seq<Arena>, i: nat, j: nat, a: Arena)
    requires TableHolds(t) && ChunkIn(t, i, j, ChunkPos(i, j))
    requires ArenaHolds(a, i) && a.chunks == t[i].chunks[j := SHM_NULL] && (a.kind == ChunkArena ==> a.used > 0)
    ensures TableHolds(t[i := a])
    ensures forall c :: HasChunk(t[i := a], c) <==> HasChunk(t, c) && c != ChunkPos(i, j)
  {
    assert |t[i].chunks| == |a.chunks| == ARENA_CHUNKS by { assert ArenaHolds(t[i], i); }
    hide ArenaHolds;
    var t' := t[i := a];
    forall c ensures HasChunk(t', c) <==> HasChunk(t, c) && c != ChunkPos(i, j) {
      if HasChunk(t', c) {
        var i', j' :| ChunkIn(t', i', j', c);
        assert ChunkIn(t, i', j', c);
        ChunkWhere(t, i', j', c);
        if c == ChunkPos(i, j) { ChunkPosUnique(i, j, i', j'); }
      }
      if HasChunk(t, c) && c != ChunkPos(i, j) {
        var i', j' :| ChunkIn(t, i', j', c);
        assert ChunkIn(t', i', j', c);
      }
    }
  }

  /** check_delete_chunk: the entry goes, and with the last one the arena, but never the context's. */
  function WithoutChunk(t: seq<Arena>, i: nat, j: nat): seq<Arena>
    requires i < |t| && j < |t[i].chunks|
  {
    var a := t[i].(chunks := t[i].chunks[j := SHM_NULL], used := t[i].used - 1);
    t[i := if a.used == 0 && a.kind != ContextArena then CLEARED else a]
  }

  /** Exactly the one chunk goes; the arena goes with it exactly if it held no other chunk. */
  lemma WithoutChunkHolds(t: seq<Arena>, i: nat, j: nat)
    requires TableHolds(t) && ChunkIn(t, i, j, ChunkPos(i, j))
    ensures TableHolds(WithoutChunk(t, i, j))
    ensures forall c :: HasChunk(WithoutChunk(t, i, j), c) <==> HasChunk(t, c) && c != ChunkPos(i, j)
    ensures WithoutChunk(t, i, j)[i].kind == EmptyArena <==>
      i != 0 && forall k :: 0 <= k < ARENA_CHUNKS && k != j ==> t[i].chunks[k] == SHM_NULL
    ensures WithoutChunk(t, i, j) == t[i :=
      if i != 0 && forall k :: 0 <= k < ARENA_CHUNKS && k != j ==> t[i].chunks[k] == SHM_NULL then CLEARED
      else t[i].(chunks := t[i].chunks[j := SHM_NULL], used := t[i].used - 1)]
  {
    ChunkWhere(t, i, j, ChunkPos(i, j));
    assert ArenaHolds(t[i], i);
    var a := t[i].(chunks := t[i].chunks[j := SHM_NULL], used := t[i].used - 1);
    CountUpdate(t[i].chunks, j, SHM_NULL);
    CountExtremes(a.chunks);
    CountExtremes(NO_CHUNKS);
    if a.used == 0 && a.kind != ContextArena {
      assert a.chunks == NO_CHUNKS;
      ChunkRemoved(t, i, j, CLEARED);
    } else {
      ChunkRemoved(t, i, j, a);
    }
    assert forall k :: 0 <= k < ARENA_CHUNKS && k != j ==> a.chunks[k] == t[i].chunks[k];
  }

  // ----- large blocks -----

  /** A new large arena: one more row in use, no chunk more. */
  lemma NewLargeHolds(t: seq<Arena>, size: int)
    requires TableHolds(t) && size > 0 && FirstUnused(t, 1) < ARENAS
    ensures var e := FirstUnused(t, 1);
      TableHolds(t[e := FreshArena(LargeArena, e, size)])
        && forall c :: HasChunk(t[e := FreshArena(LargeArena, e, size)], c) <==> HasChunk(t, c)
  {
    var e := FirstUnused(t, 1);
    FreshArenaHolds(LargeArena, e, size);
    assert ArenaHolds(t[e], e);
    SameChunks(t, e, FreshArena(LargeArena, e, size));
  }

  lemma DeleteLargeHolds(t: seq<Arena>, i: nat)
    requires TableHolds(t) && i < ARENAS && t[i].kind == LargeArena
    ensures TableHolds(t[i := CLEARED]) && forall c :: HasChunk(t[i := CLEARED], c) <==> HasChunk(t, c)
  {
    assert ArenaHolds(t[i], i);
    CountExtremes(NO_CHUNKS);
    SameChunks(t, i, CLEARED);
  }

  lemma SameChunks(t: seq<Arena>, i: nat, a: Arena)
    requires TableHolds(t) && i < ARENAS && a.chunks == t[i].chunks && ArenaHolds(a, i) && a.kind != ChunkArena
    ensures TableHolds(t[i := a]) && forall c :: HasChunk(t[i := a], c) <==> HasChunk(t, c)
  {
    hide ArenaHolds;
    var t' := t[i := a];
    forall c ensures HasChunk(t', c) <==> HasChunk(t, c) {
      if HasChunk(t', c) { var i', j' :| ChunkIn(t', i', j', c); assert ChunkIn(t, i', j', c); }
      if HasChunk(t, c) { var i', j' :| ChunkIn(t, i', j', c); assert ChunkIn(t', i', j', c); }
    }
  }

  // ----- reuse of chunk arenas -----

  function FirstRoom(t: seq<Arena>, i: nat): (r: nat)
    requires i <= |t|
    ensures i <= r <= |t|
    ensures r < |t| ==> (t[r].kind == ContextArena || t[r].kind == ChunkArena) && HasRoom(t[r])
    ensures forall k :: i <= k < r ==> !((t[k].kind == ContextArena || t[k].kind == ChunkArena) && HasRoom(t[k]))
    decreases |t| - i
  {
    if i == |t| || ((t[i].kind == ContextArena || t[i].kind == ChunkArena) && HasRoom(t[i])) then i
      else FirstRoom(t, i + 1)
  }

  /** Where new_chunk would put a chunk if its test also accepted chunk arenas. */
  function ReusingPos(t: seq<Arena>): int
    requires |t| == ARENAS
  {
    var r := FirstRoom(t, 0);
    if r < ARENAS then ChunkPos(r, FreeEntry(t[r].chunks, FirstEntry(t[r])))
    else if FirstUnused(t, 1) < ARENAS then ChunkPos(FirstUnused(t, 1), 0)
    else SHM_NULL
  }

  /** The two agree exactly if the context's arena has room or no chunk arena has. */
  lemma ReuseExact(t: seq<Arena>)
    requires TableHolds(t)
    ensures NewChunkPos(t) == ReusingPos(t) <==>
      HasRoom(t[0]) || forall i :: 0 < i < ARENAS && t[i].kind == ChunkArena ==> !HasRoom(t[i])
  {
    assert ArenaHolds(t[0], 0);
    var r := FirstRoom(t, 0);
    if !HasRoom(t[0]) && r < ARENAS {
      assert r > 0;
      var j, e := FreeEntry(t[r].chunks, FirstEntry(t[r])), FirstUnused(t, 1);
      assert ArenaHolds(t[r], r);
      if e < ARENAS {
        if ChunkPos(r, j) == ChunkPos(e, 0) { ChunkPosUnique(r, j, e, 0); }
      }
    }
  }

  /** Room for 889 more chunks, and no chunk to be had. */
  lemma RoomWasted() returns (t: seq<Arena>)
    ensures TableHolds(t) && NewChunkPos(t) == SHM_NULL && ReusingPos(t) != SHM_NULL
    ensures forall i :: 0 < i < ARENAS ==> t[i].kind == ChunkArena && t[i].used == 1
  {
    var full := seq(ARENA_CHUNKS, j => if j == 0 then RESERVED else ChunkPos(0, j));
    var context := Arena(ContextArena, 0, ARENA_UNIT, ARENA_CHUNKS, full);
    CountExtremes(full);
    t := [context] + seq(ARENAS - 1, i => OneChunk(i + 1));
    forall i | 0 <= i < ARENAS ensures ArenaHolds(t[i], i) && (i > 0 ==> t[i] == OneChunk(i)) {
      if i > 0 { OneChunkHolds(i); }
    }
    assert !HasRoom(t[0]);
    assert t[1] == OneChunk(1);
    OneChunkHolds(1);
    assert HasRoom(t[1]);
  }

  function OneChunk(i: int): Arena {
    Arena(ChunkArena, i, ARENA_UNIT, 1, NO_CHUNKS[0 := ChunkPos(i, 0)])
  }

  lemma OneChunkHolds(i: int)
    requires i > 0
    ensures ArenaHolds(OneChunk(i), i) && HasRoom(OneChunk(i))
  {
    CountExtremes(NO_CHUNKS);
    CountUpdate(NO_CHUNKS, 0, ChunkPos(i, 0));
    RoomExact(OneChunk(i), i);
  }

  // ----- the operations, in place -----

  class Arenas {
    var arenas: seq<Arena>

    /** init_shm_shared_field */
    constructor ()
      ensures TableHolds(arenas) && (forall c :: !HasChunk(arenas, c)) && HasRoom(arenas[0])
      ensures arenas[0].kind == ContextArena && forall i :: 0 < i < ARENAS ==> arenas[i].kind == EmptyArena
    {
      arenas := [Arena(ContextArena, 0, ARENA_UNIT, 1, NO_CHUNKS[0 := RESERVED])] + seq(ARENAS - 1, i => CLEARED);
      new;
      CountExtremes(NO_CHUNKS);
      CountUpdate(NO_CHUNKS, 0, RESERVED);
      RoomExact(arenas[0], 0);
      forall i, j, c ensures !ChunkIn(arenas, i, j, c) { }
    }

    /** new_arena_chunk in row `i`: a position no chunk has, 0 if the row is full. */
    method NewArenaChunk(i: nat) returns (pos: int)
      requires i < |arenas| && |arenas[i].chunks| == ARENA_CHUNKS && arenas[i].index == i
      modifies this
      ensures HasRoom(old(arenas)[i]) ==>
        arenas == old(arenas)[i := WithChunk(old(arenas)[i], i)]
          && pos == ChunkPos(i, FreeEntry(old(arenas)[i].chunks, FirstEntry(old(arenas)[i])))
      ensures !HasRoom(old(arenas)[i]) ==> arenas == old(arenas) && pos == SHM_NULL
    {
      pos := SHM_NULL;
      var idx := if arenas[i].kind == ContextArena then 1 else 0;
      while idx < ARENA_CHUNKS && arenas[i].chunks[idx] != SHM_NULL
        invariant 0 <= idx <= ARENA_CHUNKS
        invariant FreeEntry(arenas[i].chunks, FirstEntry(arenas[i])) == FreeEntry(arenas[i].chunks, idx)
      {
        idx := idx + 1;
      }
      if idx < ARENA_CHUNKS {
        pos := ChunkPos(arenas[i].index, idx);
        arenas := arenas[i := arenas[i].(chunks := arenas[i].chunks[idx := pos])];
        arenas := arenas[i := arenas[i].(used := arenas[i].used + 1)];
      }
    }

    /** new_arena, the table part. `mapped` says whether the kernel gave a segment; if not, or if the
        table is full, there is no arena: 0. */
    method NewArena(kind: ArenaKind, size: int, mapped: bool) returns (index: nat)
      requires |arenas| == ARENAS
      modifies this
      ensures index == (if mapped && FirstUnused(old(arenas), 1) < ARENAS then FirstUnused(old(arenas), 1) else 0)
      ensures arenas == if index != 0 then old(arenas)[index := FreshArena(kind, index, size)] else old(arenas)
    {
      index := 1;
      while index < ARENAS && arenas[index].kind != EmptyArena
        invariant 1 <= index <= ARENAS && FirstUnused(arenas, 1) == FirstUnused(arenas, index)
      {
        index := index + 1;
      }
      if index == ARENAS || !mapped {
        return 0;
      }
      arenas := arenas[index := FreshArena(kind, index, size)];
    }

    /** new_chunk up to init_chunk. */
    method NewChunk(mapped: bool) returns (pos: int)
      requires TableHolds(arenas)
      modifies this
      ensures pos != SHM_NULL ==> pos == NewChunkPos(old(arenas)) && arenas == WithNewChunk(old(arenas))
      ensures pos == SHM_NULL ==> arenas == old(arenas)
      ensures pos == SHM_NULL <==>
        && (forall j :: 1 <= j < ARENA_CHUNKS ==> old(arenas)[0].chunks[j] != SHM_NULL)
        && (!mapped || forall i :: 1 <= i < ARENAS ==> old(arenas)[i].kind != EmptyArena)
      ensures pos == SHM_NULL <==> NoChunk(old(arenas), mapped)
    {
      ghost var t := arenas;
      NewChunkExact(t);
      pos := SHM_NULL;
      var emptyIndex := 0;
      var i := 0;
      assert ArenaHolds(t[0], 0);
      if HasRoom(t[0]) { WithChunkHolds(t[0], 0); }
      while i < ARENAS
        invariant 0 <= i <= ARENAS && (i > 0 ==> !HasRoom(t[0])) && pos == SHM_NULL && arenas == t
        invariant emptyIndex == 0 <==> forall k :: 0 <= k < i ==> t[k].kind != EmptyArena
      {
        assert ArenaHolds(t[i], i);
        if arenas[i].kind == ContextArena || arenas[i].kind == ContextArena {
          pos := NewArenaChunk(i);
          if pos != SHM_NULL {
            break;
          }
        } else if arenas[i].kind == EmptyArena {
          emptyIndex := i;
        }
        i := i + 1;
      }
      if pos == SHM_NULL && emptyIndex != 0 {
        var index := NewArena(ChunkArena, ARENA_UNIT, mapped);
        if index != 0 {
          FreshArenaHolds(ChunkArena, index, ARENA_UNIT);
          pos := NewArenaChunk(index);
        }
      }
    }

    /** get_arena_chunk */
    function GetArenaChunk(i: nat, offset: nat): int
      requires i < |arenas| && |arenas[i].chunks| == ARENA_CHUNKS && arenas[i].size <= ARENA_UNIT
      reads this
    {
      if offset >= arenas[i].size then SHM_NULL else arenas[i].chunks[offset / CHUNK_SIZE]
    }

    /** delete_arena, the table part. */
    method DeleteArena(i: nat)
      requires i < |arenas|
      modifies this
      ensures arenas == old(arenas)[i := CLEARED]
    {
      arenas := arenas[i := CLEARED];
    }

    /** check_delete_chunk of the j-th chunk of row `i`. */
    method CheckDeleteChunk(i: nat, j: nat)
      requires TableHolds(arenas) && ChunkIn(arenas, i, j, ChunkPos(i, j))
      modifies this
      ensures arenas == WithoutChunk(old(arenas), i, j)
    {
      arenas := arenas[i := arenas[i].(chunks := arenas[i].chunks[j := SHM_NULL])];
      arenas := arenas[i := arenas[i].(used := arenas[i].used - 1)];
      if arenas[i].used == 0 && arenas[i].kind != ContextArena {
        arenas := arenas[i := CLEARED];
      }
    }
  }
}
