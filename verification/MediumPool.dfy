/** All medium chunks together with their index, chunk_medium_pool of src/shm_chunk.c. */
module MediumPool {
  import opened Basics
  import opened RedBlackMemory
  import opened RedBlackTree
  import opened ChunkPool
  import opened KeyOrder
  import opened MediumUnits
  import opened MediumChunk

  /** Everything a chunk says about itself, without its entry in the index. */
  ghost predicate Own(chunk: Chunk)
    reads chunk.Repr()
  {
    && chunk.pos > 0 && Tiles(chunk.units, 1, UNITS) && Coalesced(chunk.units)
    && chunk.BitsAgree() && chunk.TreeAgrees() && chunk.freeSize == FreePages(chunk.units) && chunk.maxSize < UNITS
  }

  ghost predicate InIndex(s: seq<int>, m: Memory<ChunkKey>, c: int, maxSize: int) {
    c in s && c in m && m[c].v.maxsize == maxSize * PAGE_SIZE && KeyOf(m[c].v, c)
  }

  lemma ChunkValid(chunk: Chunk)
    ensures chunk.Valid() <==>
      Own(chunk) && IsPool(chunk.pool) && InIndex(chunk.pool.Contents(), chunk.pool.nodes, chunk.pos, chunk.maxSize)
  {
  }

  ghost predicate Exact(chunk: Chunk)
    reads chunk.Repr()
  {
    chunk.MaxExact()
  }

  /** Distinct chunks of one index, all parts of which are in `repr`. */
  ghost predicate Named(chunks: map<int, Chunk>, pool: RBTree<ChunkKey>, repr: set<object>) {
    && pool !in repr
    && (forall c :: c in chunks ==> chunks[c].pos == c && chunks[c].pool == pool && chunks[c].Repr() <= repr)
    && (forall c, d :: c in chunks && d in chunks && c != d ==> chunks[c].Repr() !! chunks[d].Repr())
  }

  /** What the chunks say about themselves: their units, and the maximum each caches. */
  ghost predicate OwnAll(chunks: map<int, Chunk>, units: map<int, seq<Block>>, maxes: map<int, int>, repr: set<object>)
    reads repr
  {
    && chunks.Keys == units.Keys == maxes.Keys
    && forall c :: c in chunks ==> chunks[c].Repr() <= repr && OwnSays(chunks[c], units[c], maxes[c])
  }

  ghost predicate OwnSays(chunk: Chunk, u: seq<Block>, max: int)
    reads chunk.Repr()
  {
    Own(chunk) && chunk.units == u && chunk.maxSize == max
  }

  /** What the index says about them. */
  ghost predicate Indexed(pool: RBTree<ChunkKey>, maxes: map<int, int>)
    reads pool
  {
    && IsPool(pool) && (forall c :: c in pool.Contents() <==> c in maxes)
    && forall c :: c in maxes ==> InIndex(pool.Contents(), pool.nodes, c, maxes[c])
  }

  /** No chunk's cached maximum reaches `size`. */
  ghost predicate NoneReaches(maxes: map<int, int>, size: nat) {
    forall c :: c in maxes ==> maxes[c] * PAGE_SIZE < size
  }

  /** Each number is the largest free unit of its chunk. */
  ghost predicate MaxesTrue(units: map<int, seq<Block>>, maxes: map<int, int>) {
    maxes.Keys == units.Keys && forall c :: c in units ==> maxes[c] == LargestFree(units[c])
  }

  /** Every cached maximum is the true one. */
  ghost predicate AllExact(chunks: map<int, Chunk>, repr: set<object>)
    reads repr
  {
    forall c :: c in chunks ==> chunks[c].Repr() <= repr && Exact(chunks[c])
  }

  ghost predicate SameOrder(chunks: map<int, Chunk>, cmp: (MediumKey, MediumKey) -> int) {
    forall c :: c in chunks ==> chunks[c].tree.cmp == cmp
  }

  lemma OneLess(chunks: map<int, Chunk>, pool: RBTree<ChunkKey>, units: map<int, seq<Block>>, maxes: map<int, int>,
      repr: set<object>, c: int)
    requires Named(chunks, pool, repr) && OwnAll(chunks, units, maxes, repr)
    ensures Named(chunks - {c}, pool, repr) && OwnAll(chunks - {c}, units - {c}, maxes - {c}, repr)
    ensures AllExact(chunks, repr) ==> AllExact(chunks - {c}, repr)
    ensures forall cmp :: SameOrder(chunks, cmp) ==> SameOrder(chunks - {c}, cmp)
  {
    hide Own, Exact;
  }

  lemma OneMore(chunks: map<int, Chunk>, pool: RBTree<ChunkKey>, units: map<int, seq<Block>>, maxes: map<int, int>,
      repr: set<object>, c: int, chunk: Chunk)
    requires Named(chunks, pool, repr) && OwnAll(chunks, units, maxes, repr) && c !in chunks
    requires Own(chunk) && chunk.pos == c && chunk.pool == pool && pool !in chunk.Repr() && chunk.Repr() !! repr
    ensures var all, r := chunks[c := chunk], repr + chunk.Repr();
      && Named(all, pool, r) && OwnAll(all, units[c := chunk.units], maxes[c := chunk.maxSize], r)
      && (AllExact(chunks, repr) && Exact(chunk) ==> AllExact(all, r))
      && forall cmp :: SameOrder(chunks, cmp) && chunk.tree.cmp == cmp ==> SameOrder(all, cmp)
  {
    hide Own, Exact;
  }

  class Mediums {
    const pool: RBTree<ChunkKey>
    const cmp: (MediumKey, MediumKey) -> int
    var chunks: map<int, Chunk>
    ghost var units: map<int, seq<Block>>
    ghost var maxes: map<int, int>
    ghost var repr: set<object>

    ghost predicate Valid()
      reads this, pool, repr
    {
      && pool as object != this && this !in repr
      && Named(chunks, pool, repr) && OwnAll(chunks, units, maxes, repr) && Indexed(pool, maxes)
      && SameOrder(chunks, cmp)
    }

    constructor (pool: RBTree<ChunkKey>, cmp: (MediumKey, MediumKey) -> int)
      requires IsPool(pool) && pool.Contents() == []
      ensures Valid() && this.pool == pool && this.cmp == cmp && chunks == map[] && units == map[] && repr == {}
    {
      this.pool, this.cmp := pool, cmp;
      chunks, units, maxes, repr := map[], map[], map[], {};
    }

    /** The chunk that get_avaliable_chunk picks fails the assertions of malloc_chunk_medium. */
    ghost predicate Refuses(size: uint31)
      reads this, pool, repr
    {
      var c := Available(pool, size);
      c in chunks && chunks[c].Repr() <= repr && !chunks[c].Serves(PagesFor(size))
    }

    /** get_avaliable_chunk for pages: null exactly if no chunk's cached maximum reaches `size`. */
    method FindChunk(size: uint31) returns (c: int)
      requires Valid()
      ensures c != RB_NULL ==> c in chunks && chunks[c].maxSize * PAGE_SIZE >= size
      ensures c == RB_NULL ==> !Refuses(size) && forall d :: d in chunks ==> chunks[d].maxSize * PAGE_SIZE < size
      ensures c != RB_NULL ==> (Refuses(size) <==> !chunks[c].Serves(PagesFor(size)))
    {
      hide IsPool, Own, Chunk.Serves, PagesFor, Available;
      NoNull();
      c := GetAvailableChunk(pool, size);
      forall d | d in chunks ensures chunks[d].maxSize == maxes[d] { assert OwnSays(chunks[d], units[d], maxes[d]); }
    }

    lemma MaxesReach(size: nat, c: int)
      requires Valid()
      requires c != 0 ==> c in chunks && chunks[c].maxSize * PAGE_SIZE >= size
      requires c == 0 ==> forall d :: d in chunks ==> chunks[d].maxSize * PAGE_SIZE < size
      ensures NoneReaches(maxes, size) <==> c == 0
    {
      forall d | d in chunks ensures chunks[d].maxSize == maxes[d] { assert OwnSays(chunks[d], units[d], maxes[d]); }
    }

    /** Exact chunks are known by their units. */
    lemma ExactMaxes()
      requires Valid() && AllExact(chunks, repr)
      ensures MaxesTrue(units, maxes)
    {
      hide Own;
      forall d | d in chunks ensures maxes[d] == LargestFree(units[d]) {
        assert OwnSays(chunks[d], units[d], maxes[d]) && Exact(chunks[d]);
      }
    }

    lemma NoNull()
      requires Valid()
      ensures RB_NULL !in chunks
    {
      forall c | c in chunks ensures c > 0 { assert OwnSays(chunks[c], units[c], maxes[c]); }
    }

    /** malloc_chunk_medium in chunk `c`. */
    method Malloc(c: int, len: nat) returns (r: MallocResult, ghost n: int)
      requires Valid() && c in chunks && c in units && 0 < len <= (UNITS - 1) * PAGE_SIZE
      modifies this`units, this`maxes, chunks[c].Repr(), pool
      ensures Valid() && c in units
      ensures r.AssertionFailed? ==> unchanged(this, pool) && unchanged(repr)
      ensures r.Allocated? <==> old(chunks[c].Serves(PagesFor(len)))
      ensures r.Allocated? ==>
        && r.pos == c + n * PAGE_SIZE && n !in Live(old(units)[c]) && Tiles(units[c], 1, UNITS)
        && units == old(units)[c := units[c]] && Live(units[c]) == Live(old(units)[c])[n := PagesFor(len)]
      ensures old(AllExact(chunks, repr)) ==>
        AllExact(chunks, repr) && (old(chunks[c].maxSize) * PAGE_SIZE >= len ==> r.Allocated?)
    {
      hide *;
      Before(c);
      ghost var s, m, exact := pool.Contents(), pool.nodes, AllExact(chunks, repr);
      var k := chunks[c];
      r, n := Serve(k, len);
      forall d | d in chunks && d != c ensures OwnSays(chunks[d], units[d], maxes[d]) && (exact ==> Exact(chunks[d])) {
        assert chunks[d].Repr() !! k.Repr();
      }
      After(s, m, c);
      SameUpdate(units, c);
      SameUpdate(maxes, c);
      units, maxes := units[c := k.units], maxes[c := k.maxSize];
      Composed();
      if exact { EachExact(); }
    }

    /** check_chunk_medium in chunk `c`: always 0. */
    method CheckMedium(c: int, offset: uint32) returns (r: nat)
      requires Valid() && c in chunks
      ensures r == 0
    {
      hide *;
      Before(c);
      r := chunks[c].CheckSize(offset);
    }

    /** free_chunk for a chunk of pages: free_chunk_medium, and an empty chunk leaves the index. */
    method Free(c: int, offset: uint32) returns (check: bool)
      requires Valid() && c in chunks && c in units
      modifies this`units, this`maxes, this`chunks, chunks[c].Repr(), pool
      ensures Valid() && (old(AllExact(chunks, repr)) ==> AllExact(chunks, repr))
      ensures !StartsAt(old(units)[c], offset) ==> !check && units == old(units)
      ensures check <==> StartsAt(old(units)[c], offset) && Live(old(units)[c]) - {PageOf(offset)} == map[]
      ensures check ==> units == old(units) - {c} && chunks == old(chunks) - {c}
      ensures !check ==> chunks == old(chunks) && c in units && units == old(units)[c := units[c]]
      ensures !check && StartsAt(old(units)[c], offset) ==>
        Tiles(units[c], 1, UNITS) && Live(units[c]) == Live(old(units)[c]) - {PageOf(offset)}
    {
      hide PageOf, Live, StartsAt, AllExact;
      ghost var before := units;
      check := FreeUnit(c, offset);
      ghost var after := units;
      if check {
        Remove(c);
        UpdateGone(before, c, after[c]);
      }
      LiveGone(before[c], after[c], offset);
    }

    lemma UpdateGone<T>(m: map<int, T>, c: int, v: T)
      ensures m[c := v] - {c} == m - {c}
    {
    }

    lemma LiveGone(u: seq<Block>, u': seq<Block>, offset: uint32)
      ensures StartsAt(u, offset) && Live(u') == Live(u) - {PageOf(offset)} ==>
        (Live(u') == map[] <==> Live(u) - {PageOf(offset)} == map[])
    {
    }

    method FreeUnit(c: int, offset: uint32) returns (check: bool)
      requires Valid() && c in chunks && c in units
      modifies this`units, this`maxes, chunks[c].Repr(), pool
      ensures Valid() && (old(AllExact(chunks, repr)) ==> AllExact(chunks, repr)) && c in units
      ensures units == old(units)[c := units[c]] && (!StartsAt(old(units)[c], offset) ==> units == old(units))
      ensures StartsAt(old(units)[c], offset) ==>
        Tiles(units[c], 1, UNITS) && Live(units[c]) == Live(old(units)[c]) - {PageOf(offset)}
      ensures check <==> StartsAt(old(units)[c], offset) && Live(units[c]) == map[]
    {
      hide *;
      Before(c);
      ghost var s, m, exact := pool.Contents(), pool.nodes, AllExact(chunks, repr);
      var k := chunks[c];
      check := Release(k, offset);
      forall d | d in chunks && d != c ensures OwnSays(chunks[d], units[d], maxes[d]) && (exact ==> Exact(chunks[d])) {
        assert chunks[d].Repr() !! k.Repr();
      }
      After(s, m, c);
      units, maxes := units[c := k.units], maxes[c := k.maxSize];
      Composed();
      if exact { EachExact(); }
    }

    lemma PartOf(c: int)
      requires Valid() && c in chunks
      ensures chunks[c].Repr() <= repr && c in units && pool !in repr && this !in repr
    {
    }

    lemma EachExact()
      requires forall d :: d in chunks ==> Exact(chunks[d]) && chunks[d].Repr() <= repr
      ensures AllExact(chunks, repr)
    {
    }

    lemma Before(c: int)
      requires Valid() && c in chunks
      ensures chunks[c].Valid() && c in units && chunks[c].units == units[c] && c in maxes
      ensures chunks[c].maxSize == maxes[c]
      ensures pool !in chunks[c].Repr() && this !in chunks[c].Repr() && chunks[c].pool == pool && chunks[c].pos == c
      ensures Named(chunks, pool, repr) && SameOrder(chunks, cmp) && pool as object != this && this !in repr
      ensures chunks.Keys == units.Keys == maxes.Keys
      ensures AllExact(chunks, repr) ==> forall d :: d in chunks ==> Exact(chunks[d])
      ensures (forall d :: d in pool.Contents() <==> d in maxes)
      ensures forall d :: d in maxes ==> InIndex(pool.Contents(), pool.nodes, d, maxes[d])
      ensures forall d ::
        d in chunks ==> pool !in chunks[d].Repr() && this !in chunks[d].Repr() && OwnSays(chunks[d], units[d], maxes[d])
      ensures forall d :: d in chunks ==> chunks[d].Repr() <= repr
      ensures forall d :: d in chunks && d != c ==> chunks[d].Repr() !! chunks[c].Repr()
    {
      hide Own, Exact, Chunk.Repr;
      assert OwnSays(chunks[c], units[c], maxes[c]);
      ChunkValid(chunks[c]);
    }

    /** Only chunk `c` says something new, and only its entry in the index is new. */
    lemma After(s: seq<int>, m: Memory<ChunkKey>, c: int)
      requires c in chunks && chunks[c].Valid() && chunks[c].pool == pool && chunks[c].pos == c
      requires chunks.Keys == units.Keys == maxes.Keys
      requires SamePool(s, m, pool.Contents(), pool.nodes, c)
      requires (forall d :: d in s <==> d in maxes) && forall d :: d in maxes ==> InIndex(s, m, d, maxes[d])
      requires forall d :: d in chunks && d != c ==> OwnSays(chunks[d], units[d], maxes[d])
      requires forall d :: d in chunks ==> chunks[d].Repr() <= repr
      ensures Indexed(pool, maxes[c := chunks[c].maxSize])
      ensures OwnAll(chunks, units[c := chunks[c].units], maxes[c := chunks[c].maxSize], repr)
    {
      hide Own;
      ChunkValid(chunks[c]);
    }

    /** A user writes into the pages `a` to `b` of chunk `c`, which belong to blocks it holds. */
    method UserWrite(c: int, a: nat, b: nat, recs: int -> NodeRec<MediumKey>)
      requires Valid() && c in chunks && a <= b && forall page :: a <= page < b ==> chunks[c].OwnedPage(page)
      modifies chunks[c].Repr()
      ensures Valid() && (old(AllExact(chunks, repr)) ==> AllExact(chunks, repr))
    {
      hide *;
      Before(c);
      ghost var exact := AllExact(chunks, repr);
      var k := chunks[c];
      Footprint(k);
      WritePages(k, a, b, recs);
      forall d | d in chunks && d != c ensures OwnSays(chunks[d], units[d], maxes[d]) && (exact ==> Exact(chunks[d])) {
        assert chunks[d].Repr() !! k.Repr();
      }
      SameIndex(pool.Contents(), pool.nodes, c);
      After(pool.Contents(), pool.nodes, c);
      SameUpdate(units, c);
      SameUpdate(maxes, c);
      Composed();
      if exact { EachExact(); }
    }

    /** The pages of a live unit belong to it. */
    lemma Owned(c: int, n: int)
      requires Valid() && c in chunks && c in units && n in Live(units[c])
      ensures forall page :: n <= page < n + Live(units[c])[n] ==> chunks[c].OwnedPage(page)
      ensures chunks[c].tree in repr
    {
      hide Own;
      assert OwnSays(chunks[c], units[c], maxes[c]);
    }

    lemma Footprint(k: Chunk)
      ensures k.tree in k.Repr()
    {
    }

    lemma SameIndex(s: seq<int>, m: Memory<ChunkKey>, c: int)
      ensures SamePool(s, m, s, m, c)
    {
    }

    lemma SameUpdate<T>(m: map<int, T>, c: int)
      requires c in m
      ensures m[c := m[c]] == m
    {
    }

    /** delete_chunk */
    method Remove(c: int)
      requires Valid() && c in chunks
      modifies this`units, this`maxes, this`chunks, pool
      ensures Valid() && (old(AllExact(chunks, repr)) ==> AllExact(chunks, repr))
      ensures units == old(units) - {c} && chunks == old(chunks) - {c}
    {
      hide *;
      Components();
      OneLess(chunks, pool, units, maxes, repr, c);
      ghost var rest, u, x := chunks - {c}, units - {c}, maxes - {c};
      Unindex(c);
      assert OwnAll(rest, u, x, repr) && (old(AllExact(chunks, repr)) ==> AllExact(rest, repr));
      chunks, units, maxes := chunks - {c}, u, x;
      Composed();
    }

    lemma Components()
      requires Valid()
      ensures pool as object != this && this !in repr && pool !in repr && chunks.Keys == units.Keys == maxes.Keys
      ensures Named(chunks, pool, repr) && OwnAll(chunks, units, maxes, repr) && Indexed(pool, maxes)
      ensures SameOrder(chunks, cmp)
    {
    }

    lemma Composed()
      requires pool as object != this && this !in repr
      requires Named(chunks, pool, repr) && OwnAll(chunks, units, maxes, repr) && Indexed(pool, maxes)
      requires SameOrder(chunks, cmp)
      ensures Valid()
    {
    }

    method Unindex(c: int)
      requires Indexed(pool, maxes) && c in maxes
      modifies pool
      ensures Indexed(pool, maxes - {c})
    {
      hide IsPool, InIndex;
      ghost var s, m := pool.Contents(), pool.nodes;
      DeleteFromPool(pool, c);
      IndexLess(s, m, c);
    }

    lemma IndexLess(s: seq<int>, m: Memory<ChunkKey>, c: int)
      requires (forall i :: i in pool.Contents() <==> i in s && i != c) && exists ids :: OnlyLinks(m, pool.nodes, ids)
      ensures forall d, max :: d != c && InIndex(s, m, d, max) ==> InIndex(pool.Contents(), pool.nodes, d, max)
    {
    }

    /** init_chunk of a chunk of pages, whatever those pages hold. */
    method InitChunk(pos: int, indexKey: uint31, pages: Memory<MediumKey>)
      requires Valid() && pos > 0 && pos !in chunks && ENODE !in pages && forall p :: 1 <= p < UNITS ==> p in pages
      requires indexKey == pos / ARENA_SPAN
      modifies this`units, this`maxes, this`chunks, this`repr, pool
      ensures Valid() && fresh(repr - old(repr)) && units == old(units)[pos := [Block(1, UNITS - 1, false)]]
      ensures pos in chunks && chunks == old(chunks)[pos := chunks[pos]] && chunks[pos].maxSize == UNITS - 1
      ensures old(AllExact(chunks, repr)) && (forall a, b :: cmp(a, b) == SizeIndexCompare(a, b)) ==>
        AllExact(chunks, repr)
      ensures Written(cmp) ==> ServesAll(chunks[pos])
    {
      hide *;
      Components();
      var chunk := NewChunk(pos, indexKey, pages);
      assert OwnAll(chunks, units, maxes, repr) && (old(AllExact(chunks, repr)) ==> AllExact(chunks, repr));
      OneMore(chunks, pool, units, maxes, repr, pos, chunk);
      ghost var all, u, x, r := chunks[pos := chunk], units[pos := chunk.units], maxes[pos := chunk.maxSize],
        repr + chunk.Repr();
      assert OwnAll(all, u, x, r) && (AllExact(chunks, repr) && Exact(chunk) ==> AllExact(all, r));
      chunks, units, maxes, repr := chunks[pos := chunk], u, x, r;
      Composed();
    }

    lemma IndexMore(m0: Memory<ChunkKey>, s: seq<int>, m: Memory<ChunkKey>, c: int)
      requires (forall i :: i in pool.Contents() <==> i in s || i == c) && exists ids :: OnlyLinks(m, pool.nodes, ids)
      requires forall i :: i in m0 && i != c ==> i in m && m[i] == m0[i]
      ensures forall d, max :: d != c && InIndex(s, m0, d, max) ==> InIndex(pool.Contents(), pool.nodes, d, max)
    {
    }

    method NewChunk(pos: int, indexKey: uint31, pages: Memory<MediumKey>) returns (chunk: Chunk)
      requires Indexed(pool, maxes) && pos > 0 && pos !in maxes && ENODE !in pages && indexKey == pos / ARENA_SPAN
      requires forall p :: 1 <= p < UNITS ==> p in pages
      modifies pool
      ensures fresh(chunk.Repr()) && pool !in chunk.Repr() && Own(chunk) && Indexed(pool, maxes[pos := UNITS - 1])
      ensures chunk.pos == pos && chunk.pool == pool && chunk.tree.cmp == cmp && chunk.maxSize == UNITS - 1
      ensures chunk.units == [Block(1, UNITS - 1, false)]
      ensures (forall a, b :: cmp(a, b) == SizeIndexCompare(a, b)) ==> Exact(chunk)
      ensures Written(cmp) ==> ServesAll(chunk)
    {
      hide IsPool, Own, InIndex, Exact, Chunk.Valid, ServesAll, Written;
      ghost var m := pool.nodes;
      WriteHeader(pool, pos, ChunkKey(indexKey, (UNITS - 1) * PAGE_SIZE));
      ghost var s, m1 := pool.Contents(), pool.nodes;
      chunk := MediumChunk.InitChunk(pos, pool, cmp, pages);
      IndexMore(m, s, m1, pos);
      ChunkValid(chunk);
      FullExact(chunk);
      if Written(cmp) { FullServes(chunk); }
    }
  }

  /** The chunk serves every request for pages. */
  ghost predicate ServesAll(k: Chunk)
    reads k, k.tree
  {
    forall n: uint16 :: 0 < n < UNITS ==> k.Serves(n)
  }

  lemma FullServes(k: Chunk)
    requires k.Valid() && k.AsWritten() && k.units == [Block(1, UNITS - 1, false)]
    ensures ServesAll(k)
  {
    hide Chunk.Serves, RBTree.Valid;
    OneBlockViews(k.units[0]);
    var s := k.tree.Contents();
    k.tree.AllKnown();
    assert 1 in s && First(s) in s && First(s) == 1;
    assert UnitNode(k.tree.nodes, k.units[0]);
    forall n: uint16 | 0 < n < UNITS ensures k.Serves(n) { k.ServesAsWritten(n); }
  }

  /** A chunk that is one free unit. */
  lemma FullExact(k: Chunk)
    requires k.units == [Block(1, UNITS - 1, false)] && k.maxSize == UNITS - 1
    requires (forall a, b :: k.tree.cmp(a, b) == SizeIndexCompare(a, b)) ==> k.tree.Ordered()
    ensures (forall a, b :: k.tree.cmp(a, b) == SizeIndexCompare(a, b)) ==> Exact(k)
  {
    OneBlockViews(k.units[0]);
  }

  method WritePages(k: Chunk, a: nat, b: nat, recs: int -> NodeRec<MediumKey>)
    requires k.Valid() && a <= b && forall page :: a <= page < b ==> k.OwnedPage(page)
    modifies k.tree
    ensures k.Valid() && (old(Exact(k)) ==> Exact(k))
  {
    hide Chunk.Valid, Exact, Chunk.OwnedPage;
    for page := a to b
      invariant k.Valid() && unchanged(k) && (old(Exact(k)) ==> Exact(k))
    {
      WritePage(k, page, recs(page));
    }
  }

  method WritePage(k: Chunk, page: nat, rec: NodeRec<MediumKey>)
    requires k.Valid() && k.OwnedPage(page)
    modifies k.tree
    ensures k.Valid() && (old(Exact(k)) ==> Exact(k))
  {
    hide Chunk.Valid, Chunk.MaxExact, Chunk.OwnedPage;
    k.UserWrite(page, rec);
  }

  /** A live block starts there. */
  ghost predicate StartsAt(u: seq<Block>, offset: uint32) {
    offset % PAGE_SIZE == 0 && PageOf(offset) in Live(u)
  }

  /** free_chunk_medium in one chunk. */
  method Release(k: Chunk, offset: uint32) returns (check: bool)
    requires k.Valid()
    modifies k.Repr(), k.pool
    ensures k.Valid() && Tiles(k.units, 1, UNITS)
    ensures StartsAt(old(k.units), offset) ==> Live(k.units) == Live(old(k.units)) - {PageOf(offset)}
    ensures !StartsAt(old(k.units), offset) ==> k.units == old(k.units)
    ensures check <==> StartsAt(old(k.units), offset) && Live(k.units) == map[]
    ensures SamePool(old(k.pool.Contents()), old(k.pool.nodes), k.pool.Contents(), k.pool.nodes, k.pos)
    ensures old(Exact(k)) ==> Exact(k)
  {
    hide Chunk.MaxExact, SamePool, Live, Tiles;
    check := k.Free(offset);
    assert k.Valid() ==> Tiles(k.units, 1, UNITS);
  }

  /** malloc_chunk_medium in one chunk: a unit of the pages asked for at page `n`. */
  method Serve(k: Chunk, len: nat) returns (r: MallocResult, ghost n: int)
    requires k.Valid() && 0 < len <= (UNITS - 1) * PAGE_SIZE
    modifies k.Repr(), k.pool
    ensures k.Valid() && Tiles(k.units, 1, UNITS)
    ensures r.AssertionFailed? ==> unchanged(k.Repr()) && unchanged(k.pool)
    ensures r.Allocated? <==> old(k.Serves(PagesFor(len)))
    ensures r.Allocated? ==> r.pos == k.pos + n * PAGE_SIZE && n !in Live(old(k.units))
    ensures r.Allocated? ==> Live(k.units) == Live(old(k.units))[n := PagesFor(len)]
    ensures SamePool(old(k.pool.Contents()), old(k.pool.nodes), k.pool.Contents(), k.pool.nodes, k.pos)
    ensures old(Exact(k)) ==> Exact(k) && (old(k.maxSize) * PAGE_SIZE >= len ==> r.Allocated?)
  {
    hide Chunk.MaxExact, SamePool, Live, Chunk.Serves, Tiles;
    assert k.Valid() ==> Tiles(k.units, 1, UNITS);
    n := k.Found(PagesFor(len));
    PagesForExact(len);
    if k.MaxExact() { k.ServesExactly(PagesFor(len)); }
    r := k.Malloc(len);
  }
}
