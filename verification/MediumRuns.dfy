/** Two short runs of a medium chunk with the comparator as written in src/chunk_medium.c:24-29. */
module MediumRuns {
  import opened Basics
  import opened RedBlackShape
  import opened RedBlackTree
  import opened KeyOrder
  import opened MediumUnits
  import opened MediumChunk

  /** The comparator as written is no order: of two units of different sizes, each comes after the other. */
  lemma NotAnOrder(a: MediumKey, b: MediumKey)
    requires a.size != b.size
    ensures MediumTreeCompare(a, b) > 0 && MediumTreeCompare(b, a) > 0
  {
  }

  /** A chunk is known by its live blocks. */
  lemma KnownBy(c: Chunk, v: seq<Block>)
    requires c.Valid() && Tiles(v, 1, UNITS) && Coalesced(v) && Live(v) == Live(c.units)
    ensures c.units == v
    ensures forall p :: p in c.tree.Contents() <==> p in FreeStarts(v)
    ensures NoDuplicates(c.tree.Contents())
    ensures forall p :: p in FreeStarts(v) ==> p in c.tree.nodes && p > 0
  {
    UnitsDetermined(c.units, v, 1, UNITS);
    c.tree.AllKnown();
    ElemsDistinct(c.tree.tree);
  }

  lemma Differ(s: seq<int>, i: int, j: int)
    requires NoDuplicates(s) && 0 <= i < j < |s|
    ensures s[i] != s[j] && s[i] in s && s[j] in s
  {
  }

  lemma OneMember(s: seq<int>, a: int)
    requires NoDuplicates(s) && forall p :: p in s <==> p == a
    ensures s == [a]
  {
    assert a in s;
    if |s| >= 2 { Differ(s, 0, 1); }
  }

  lemma TwoMembers(s: seq<int>, a: int, b: int)
    requires NoDuplicates(s) && a != b && First(s) == a && forall p :: p in s <==> p == a || p == b
    ensures s == [a, b]
  {
    assert a in s && b in s;
    if |s| >= 2 { Differ(s, 0, 1); }
    if |s| >= 3 { Differ(s, 0, 2); Differ(s, 1, 2); }
  }

  ghost function Tail(start: int): Block { Block(start, UNITS - start, false) }

  ghost function Pages(k: nat): map<int, int> {
    if k == 0 then map[] else Pages(k - 1)[k as int := 1]
  }

  /** `k` one-page blocks from page 1 on, and the rest free. */
  ghost function Filled(k: nat): seq<Block>
    requires k <= 3
  {
    if k == 0 then [Tail(1)] else if k == 1 then [Block(1, 1, true), Tail(2)]
    else if k == 2 then [Block(1, 1, true), Block(2, 1, true), Tail(3)]
    else [Block(1, 1, true), Block(2, 1, true), Block(3, 1, true), Tail(4)]
  }

  lemma TailViews(s: int)
    requires 1 <= s < UNITS
    ensures var v := [Tail(s)];
      FreeStarts(v) == {s} && Live(v) == map[] && LargestFree(v) == UNITS - s && Coalesced(v) && Tiles(v, s, UNITS)
  {
    OneBlockViews(Tail(s));
  }

  lemma FilledViews(k: nat)
    requires k <= 3
    ensures Tiles(Filled(k), 1, UNITS) && Coalesced(Filled(k)) && FreeStarts(Filled(k)) == {k + 1}
    ensures LargestFree(Filled(k)) == UNITS - 1 - k
    ensures Live(Filled(k)) == Pages(k)
  {
    hide Tiles, Coalesced, FreeStarts, Live, LargestFree;
    TailViews(k + 1);
    var t := [Tail(k + 1)];
    if k >= 1 { ConsViews(Block(k, 1, true), t); t := [Block(k, 1, true)] + t; }
    if k >= 2 { ConsViews(Block(k - 1, 1, true), t); t := [Block(k - 1, 1, true)] + t; }
    if k >= 3 { ConsViews(Block(k - 2, 1, true), t); t := [Block(k - 2, 1, true)] + t; }
    assert t == Filled(k);
    assert Pages(1) == map[1 := 1] && Pages(2) == map[1 := 1, 2 := 1] && Pages(3) == map[1 := 1, 2 := 1, 3 := 1];
  }

  lemma LoneUnit(c: Chunk, k: nat)
    requires k <= 3 && c.Valid() && Live(c.units) == Pages(k)
    ensures c.units == Filled(k) && c.tree.Contents() == [k + 1]
    ensures k + 1 in c.tree.nodes && c.tree.nodes[k + 1].v == MediumKey(UNITS - 1 - k, k + 1)
    ensures c.LastSize() == UNITS - 1 - k
  {
    hide Tiles, Coalesced, FreeStarts, Live, LargestFree, Filled, UnitNodes, RBTree.Valid;
    FilledViews(k);
    KnownBy(c, Filled(k));
    OneMember(c.tree.Contents(), k + 1);
    LargestNode(c.tree.nodes, c.units, 1, UNITS);
    c.SizeBound(k + 1);
  }

  /** One more one-page block. */
  method Fill(c: Chunk, ghost k: nat)
    requires k < 3 && c.Valid() && c.AsWritten() && Live(c.units) == Pages(k) && c.maxSize == UNITS - 1 - k
    modifies c, c.tree, c.pool, c.bitmapType, c.bitmapUp, c.bitmapDown
    ensures c.Valid() && Live(c.units) == Pages(k + 1) && c.maxSize == UNITS - 2 - k
  {
    hide Tiles, Coalesced, FreeStarts, Live, LargestFree, UnitNodes, RBTree.Valid, Filled, Chunk.KeepsMaximum;
    LoneUnit(c, k);
    c.ServesAsWritten(1);
    assert PagesFor(PAGE_SIZE) == 1;
    var r := c.Malloc(PAGE_SIZE);
    LoneUnit(c, k + 1);
  }

  /** Two blocks, the first one freed: one free page at 1, 253 at 3, and the tree order puts 1 first. */
  method FreeFirst(c: Chunk, ghost k: nat)
    requires 2 <= k <= 3 && c.Valid() && c.AsWritten() && Live(c.units) == Pages(k) && c.maxSize == UNITS - 1 - k
    modifies c, c.tree, c.pool, c.bitmapType, c.bitmapUp, c.bitmapDown
    ensures c.Valid() && c.maxSize == UNITS - 1 - k && Live(c.units) == Pages(k) - {1}
    ensures LargestFree(c.units) == UNITS - 1 - k && FreeStarts(c.units) == {1, k + 1}
    ensures First(c.tree.Contents()) == 1 && 1 in c.tree.nodes && c.tree.nodes[1].v == MediumKey(1, 1)
  {
    hide Tiles, Coalesced, FreeStarts, Live, LargestFree, UnitNodes, RBTree.Valid, Filled, Chunk.KeepsMaximum;
    LoneUnit(c, k);
    assert PageOf(PAGE_SIZE) == 1;
    var r := c.Free(PAGE_SIZE);
    HoleViews(k);
    KnownBy(c, Hole(k));
    HoleSizes(c, k);
  }

  ghost function Hole(k: nat): seq<Block>
    requires 2 <= k <= 3
  {
    [Block(1, 1, false)] + if k == 2 then [Block(2, 1, true), Tail(3)]
      else [Block(2, 1, true), Block(3, 1, true), Tail(4)]
  }

  lemma HoleViews(k: nat)
    requires 2 <= k <= 3
    ensures Tiles(Hole(k), 1, UNITS) && Coalesced(Hole(k)) && FreeStarts(Hole(k)) == {1, k + 1}
    ensures LargestFree(Hole(k)) == UNITS - 1 - k && Live(Hole(k)) == Pages(k) - {1}
    ensures Hole(k)[0] == Block(1, 1, false)
  {
    hide Tiles, Coalesced, FreeStarts, Live, LargestFree;
    TailViews(k + 1);
    var t := [Tail(k + 1)];
    ConsViews(Block(k, 1, true), t);
    t := [Block(k, 1, true)] + t;
    if k == 3 { ConsViews(Block(2, 1, true), t); t := [Block(2, 1, true)] + t; }
    ConsViews(Block(1, 1, false), t);
    t := [Block(1, 1, false)] + t;
    assert t == Hole(k);
    assert Pages(2) - {1} == map[2 := 1] && Pages(3) - {1} == map[2 := 1, 3 := 1] by {
      assert Pages(1) == map[1 := 1] && Pages(2) == map[1 := 1, 2 := 1] && Pages(3) == map[1 := 1, 2 := 1, 3 := 1];
    }
  }

  lemma HoleSizes(c: Chunk, k: nat)
    requires 2 <= k <= 3 && c.Valid() && c.units == Hole(k)
    ensures 1 in c.tree.nodes && c.tree.nodes[1].v == MediumKey(1, 1)
    ensures k + 1 in c.tree.nodes && c.tree.nodes[k + 1].v == MediumKey(UNITS - 1 - k, k + 1)
  {
    hide Tiles, Coalesced, FreeStarts, Live, LargestFree, RBTree.Valid;
    HoleViews(k);
    LargestNode(c.tree.nodes, c.units, 1, UNITS);
    assert UnitNode(c.tree.nodes, c.units[0]);
    c.SizeBound(1);
    c.SizeBound(k + 1);
  }

  /** malloc one page, malloc one page, free the first, malloc two pages: 253 pages are free in
      one piece, the pool offers the chunk, and the allocation fails its assertion. */
  method AbortingRun(c: Chunk) returns (r: MallocResult)
    requires c.Valid() && c.AsWritten() && Live(c.units) == map[] && c.maxSize == UNITS - 1
    modifies c, c.tree, c.pool, c.bitmapType, c.bitmapUp, c.bitmapDown
    ensures c.Valid() && r == AssertionFailed
    ensures LargestFree(c.units) == 253 && c.pool.nodes[c.pos].v.maxsize >= 2 * PAGE_SIZE
  {
    hide Tiles, Coalesced, FreeStarts, Live, LargestFree, UnitNodes, RBTree.Valid, Chunk.KeepsMaximum;
    hide Chunk.RestFirst, Chunk.LastSize, Chunk.Serves, Chunk.Found;
    Fill(c, 0);
    Fill(c, 1);
    FreeFirst(c, 2);
    TwoPages();
    c.ServesAsWritten(2);
    r := c.Malloc(2 * PAGE_SIZE);
  }

  /** What is known of a chunk with `k` filled pages whose first page has been freed. */
  lemma HoleKnown(c: Chunk, k: nat)
    requires 2 <= k <= 3 && c.Valid() && Live(c.units) == Pages(k) - {1}
    ensures c.units == Hole(k) && LargestFree(c.units) == UNITS - 1 - k && FreeStarts(c.units) == {1, k + 1}
    ensures NoDuplicates(c.tree.Contents()) && forall p :: p in c.tree.Contents() <==> p == 1 || p == k + 1
    ensures 1 in c.tree.nodes && c.tree.nodes[1].v == MediumKey(1, 1)
    ensures k + 1 in c.tree.nodes && c.tree.nodes[k + 1].v == MediumKey(UNITS - 1 - k, k + 1)
  {
    hide Tiles, Coalesced, FreeStarts, Live, LargestFree, UnitNodes, RBTree.Valid, Hole, Chunk.KeepsMaximum;
    HoleViews(k);
    KnownBy(c, Hole(k));
    HoleSizes(c, k);
  }

  /** malloc one page three times, free the first, free the third, malloc one page: 252 pages
      are free in one piece, and the cached maximum says one page. */
  method StaleMaximumRun(c: Chunk)
    requires c.Valid() && c.AsWritten() && Live(c.units) == map[] && c.maxSize == UNITS - 1
    modifies c, c.tree, c.pool, c.bitmapType, c.bitmapUp, c.bitmapDown
    ensures c.Valid() && c.maxSize == 1 && LargestFree(c.units) == 252
  {
    hide Tiles, Coalesced, FreeStarts, Live, LargestFree, UnitNodes, RBTree.Valid, Hole, Chunk.KeepsMaximum;
    Fill(c, 0);
    Fill(c, 1);
    Fill(c, 2);
    FreeFirst(c, 3);
    FreeThird(c);
    TakeThird(c);
  }

  /** The third page is taken from the first unit; the last unit in tree order is the single page. */
  method TakeThird(c: Chunk)
    requires c.Valid() && c.AsWritten() && Live(c.units) == Pages(2) - {1} && c.maxSize == 253
    requires First(c.tree.Contents()) == 3
    modifies c, c.tree, c.pool, c.bitmapType, c.bitmapUp, c.bitmapDown
    ensures c.Valid() && c.maxSize == 1 && LargestFree(c.units) == 252
  {
    hide Tiles, Coalesced, FreeStarts, Live, LargestFree, UnitNodes, RBTree.Valid, Hole, Chunk.KeepsMaximum;
    hide Chunk.RestFirst, Chunk.LastSize;
    c.ServesAsWritten(1);
    OnePage();
    HoleKnown(c, 2);
    var r := c.Malloc(PAGE_SIZE);
    PagesList();
    LastIsHole(c);
  }

  lemma TwoPages()
    ensures PagesFor(2 * PAGE_SIZE) == 2
  {
  }

  lemma OnePage()
    ensures PagesFor(PAGE_SIZE) == 1
  {
  }

  /** Of the two free units the one first in tree order is at 4, so the last one is the single page. */
  lemma LastIsHole(c: Chunk)
    requires c.Valid() && c.AsWritten() && Live(c.units) == Pages(3) - {1} && c.RestFirst(MediumKey(253, 3), 3, 1)
    ensures c.LastSize() == 1 && LargestFree(c.units) == 252
  {
    hide Tiles, Coalesced, FreeStarts, Live, LargestFree, UnitNodes, RBTree.Valid, Hole;
    HoleKnown(c, 3);
    TwoMembers(c.tree.Contents(), 4, 1);
  }

  lemma PagesList()
    ensures Pages(2) - {1} == map[2 := 1] && Pages(3) - {1} == map[2 := 1, 3 := 1]
  {
    assert Pages(1) == map[1 := 1] && Pages(2) == map[1 := 1, 2 := 1] && Pages(3) == map[1 := 1, 2 := 1, 3 := 1];
  }

  /** The third page merges with what follows it and becomes the first unit in tree order. */
  method FreeThird(c: Chunk)
    requires c.Valid() && c.AsWritten() && Live(c.units) == Pages(3) - {1} && c.maxSize == 252
    modifies c, c.tree, c.pool, c.bitmapType, c.bitmapUp, c.bitmapDown
    ensures c.Valid() && Live(c.units) == Pages(2) - {1} && c.maxSize == 253 && First(c.tree.Contents()) == 3
  {
    hide Tiles, Coalesced, FreeStarts, Live, LargestFree, UnitNodes, RBTree.Valid, Hole, Chunk.KeepsMaximum;
    PagesList();
    assert PageOf(3 * PAGE_SIZE) == 3;
    var r := c.Free(3 * PAGE_SIZE);
    assert Live(c.units) == Pages(2) - {1};
    HoleKnown(c, 2);
  }
}
