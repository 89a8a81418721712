/** The page allocator of src/chunk_medium.c. */
module MediumChunk {
  import opened Basics
  import opened RedBlackShape
  import opened RedBlackMemory
  import opened RedBlackTree
  import opened RedBlackSearch
  import opened KeyOrder
  import opened Bitmap
  import opened ChunkPool
  import opened MediumUnits

  type uint16 = x: int | 0 <= x < 0x1_0000

  datatype MediumKey = MediumKey(size: uint16, index: uint16)

  /** medium_tree_compare: the size difference is kept in an unsigned 16-bit variable, so it is
      never negative. */
  function MediumTreeCompare(a: MediumKey, b: MediumKey): int {
    var r := (a.size - b.size) % 0x1_0000;
    if r != 0 then r else a.index - b.index
  }

  /** The order by size, then by index, that a signed difference would give. */
  function SizeIndexCompare(a: MediumKey, b: MediumKey): int {
    if a.size != b.size then a.size - b.size else a.index - b.index
  }

  /** The two agree exactly when the first size is not the smaller one. */
  lemma ComparatorsAgree(a: MediumKey, b: MediumKey)
    ensures MediumTreeCompare(a, b) == SizeIndexCompare(a, b) <==> a.size >= b.size
    ensures a.size < b.size ==> MediumTreeCompare(a, b) > 0
  {
  }

  /** align_size */
  function AlignSize(size: nat, align: nat): nat
    requires align > 0
  {
    align * ((size + (align - 1)) / align)
  }

  /** Pages for a request, as malloc_chunk_medium computes them. */
  function PagesFor(len: nat): uint16 {
    AlignSize(len, PAGE_SIZE) / PAGE_SIZE % 0x1_0000
  }

  lemma PagesForExact(len: nat)
    requires 0 < len <= (UNITS - 1) * PAGE_SIZE
    ensures 0 < PagesFor(len) < UNITS && (PagesFor(len) - 1) * PAGE_SIZE < len <= PagesFor(len) * PAGE_SIZE
  {
    var k := (len + (PAGE_SIZE - 1)) / PAGE_SIZE;
    assert AlignSize(len, PAGE_SIZE) == PAGE_SIZE * k;
  }

  /** The page an offset names after truncation to 16 bits. */
  function PageOf(offset: uint32): uint16 {
    offset / PAGE_SIZE % 0x1_0000
  }

  datatype MallocResult = Allocated(pos: int) | AssertionFailed

  ghost predicate UnitNodes(m: Memory<MediumKey>, u: seq<Block>) {
    if u == [] then true
    else (u[0].used || UnitNode(m, u[0])) && UnitNodes(m, u[1..])
  }

  ghost predicate UnitNode(m: Memory<MediumKey>, b: Block) {
    b.start in m && m[b.start].s == b.start && m[b.start].v.size == b.len && m[b.start].v.index == b.start
  }

  lemma {:induction false} UnitNodesConcat(m: Memory<MediumKey>, a: seq<Block>, b: seq<Block>)
    ensures UnitNodes(m, a + b) <==> UnitNodes(m, a) && UnitNodes(m, b)
  {
    if a == [] {
      assert a + b == b;
    } else {
      UnitNodesConcat(m, a[1..], b);
      assert (a + b)[1..] == a[1..] + b;
    }
  }

  /** Names and keys of the records in `ids` are what they were. */
  ghost predicate SameKeys(m: Memory<MediumKey>, m': Memory<MediumKey>, ids: set<int>) {
    forall i :: i in ids && i in m ==> i in m' && m'[i].s == m[i].s && m'[i].v == m[i].v
  }

  lemma {:induction false} UnitNodesFrame(m: Memory<MediumKey>, m': Memory<MediumKey>, u: seq<Block>)
    requires UnitNodes(m, u) && SameKeys(m, m', FreeStarts(u))
    ensures UnitNodes(m', u)
  {
    if u != [] {
      if !u[0].used { assert u[0].start in FreeStarts(u); }
      UnitNodesFrame(m, m', u[1..]);
    }
  }

  // ----- the last unit in tree order -----

  ghost predicate Written(cmp: (MediumKey, MediumKey) -> int) {
    forall a, b :: cmp(a, b) == MediumTreeCompare(a, b)
  }

  /** The size of the last unit of a tree, 0 for none. */
  ghost function SizeOfLast(m: Memory<MediumKey>, s: seq<int>): int {
    if s == [] || Last(s) !in m then 0 else m[Last(s)].v.size
  }

  /** Where unit `n` has joined, the last unit is the one before, or `n` itself and as large as that. */
  ghost predicate LastJoined(m: Memory<MediumKey>, s: seq<int>, s': seq<int>, n: int, size: int) {
    s != [] ==> Last(s') == Last(s) || (Last(s') == n && Last(s) in m && m[Last(s)].v.size == size)
  }

  /** With the comparator as written nothing compares below a unit of another size. */
  lemma JoinedLast(m0: Memory<MediumKey>, m: Memory<MediumKey>, cmp: (MediumKey, MediumKey) -> int, s: seq<int>,
      s': seq<int>, n: int, k: nat)
    requires InsertedAt(m, cmp, s, s', n, k) && Written(cmp) && n !in s && SameKeys(m0, m, m0.Keys - {n})
    requires m.Keys == m0.Keys
    ensures LastJoined(m0, s, s', n, m[n].v.size)
  {
    if s != [] && k == |s| {
      assert s[..k] == s;
      assert Last(s) in s;
      ComparatorsAgree(m[Last(s)].v, m[n].v);
    }
  }

  /** What the tree of units is once unit `n` has given `size` of its pages away. */
  ghost predicate CarvedTree(m0: Memory<MediumKey>, s0: seq<int>, m: Memory<MediumKey>, s: seq<int>, n: int,
      size: int) {
    && n in m0 && n in s0
    && var len := m0[n].v.size;
      && (forall p :: p in s <==> (p in s0 && p != n) || (len > size && p == n + size))
      && (forall p :: p in s0 && p != n ==> p in m0 && p in m && m[p].v.size == m0[p].v.size)
      && (len > size ==> n + size in m && m[n + size].v.size == len - size)
  }

  /** The last unit then, if the first one was taken: as large as before, or the rest. */
  ghost predicate LastCarved(m0: Memory<MediumKey>, s0: seq<int>, m: Memory<MediumKey>, s: seq<int>, n: int,
      size: int) {
    n in m0 && n == First(s0) ==> SizeOfLast(m, s) == if |s0| > 1 then SizeOfLast(m0, s0) else m0[n].v.size - size
  }

  ghost predicate Carved(cmp: (MediumKey, MediumKey) -> int, m0: Memory<MediumKey>, s0: seq<int>, m: Memory<MediumKey>,
      s: seq<int>, n: int, size: int) {
    CarvedTree(m0, s0, m, s, n, size) && (Written(cmp) ==> LastCarved(m0, s0, m, s, n, size))
  }

  lemma CarvedFrame(cmp: (MediumKey, MediumKey) -> int, m0: Memory<MediumKey>, s0: seq<int>, m: Memory<MediumKey>,
      m': Memory<MediumKey>, s: seq<int>,
                    n: int, size: int)
    requires Carved(cmp, m0, s0, m, s, n, size) && m.Keys == m'.Keys && SameKeys(m, m', m.Keys - {n}) && n !in s
    ensures Carved(cmp, m0, s0, m', s, n, size)
  {
    if s != [] { assert Last(s) in s; }
  }

  lemma CarvedLast(cmp: (MediumKey, MediumKey) -> int, m0: Memory<MediumKey>, s0: seq<int>, s1: seq<int>,
      m: Memory<MediumKey>, s: seq<int>, n: int, size: int)
    requires NoDuplicates(s0) && n in s0 && n in m0 && 0 < size <= m0[n].v.size
    requires (forall p :: p in s <==> p in s1 && p != n)
    requires forall p :: p in s1 <==> p in s0 || (m0[n].v.size > size && p == n + size)
    requires forall p :: p in s0 ==> p in m0 && p in m && m[p].v == m0[p].v
    requires m0[n].v.size > size ==> n + size in m && m[n + size].v.size == m0[n].v.size - size
    requires m0[n].v.size > size && Written(cmp) ==> LastJoined(m0, s0, s1, n + size, m0[n].v.size - size)
    requires m0[n].v.size == size ==> s1 == s0
    requires n != Last(s1) ==> Last(s) == Last(s1)
    ensures Carved(cmp, m0, s0, m, s, n, size)
  {
    if Written(cmp) && n == First(s0) {
      if |s0| > 1 {
        assert Last(s0) != First(s0) && Last(s0) in s0;
        assert Last(s) == Last(s1);
        assert s != [] by { assert Last(s0) in s; }
      } else {
        assert s0 == [n];
        if s != [] { assert Last(s) in s; }
      }
    }
  }

  /** No unit but the first is larger than the last one, nor is what is left of the first; or it is the only one. */
  ghost predicate LastIsNext(m: Memory<MediumKey>, s: seq<int>, size: int) {
    s != [] ==>
      || |s| == 1
      || (First(s) in m && m[First(s)].v.size - size <= SizeOfLast(m, s)
         && forall p {:trigger p in s} :: p in s && p != First(s) && p in m ==> m[p].v.size <= SizeOfLast(m, s))
  }

  class Chunk {
    const pos: int
    const pool: RBTree<ChunkKey>
    const tree: RBTree<MediumKey>
    const bitmapType: array<bv64>
    const bitmapUp: array<bv64>
    const bitmapDown: array<bv64>
    var maxSize: nat
    var freeSize: nat
    ghost var units: seq<Block>

    ghost predicate Layout() {
      && bitmapType.Length == 4 && bitmapUp.Length == 4 && bitmapDown.Length == 4
      && bitmapType != bitmapUp && bitmapType != bitmapDown && bitmapUp != bitmapDown
      && tree as object != pool
    }

    ghost function Repr(): set<object> {
      {this, tree, bitmapType, bitmapUp, bitmapDown}
    }

    /** bitmap_down is bitmap_up read backwards. */
    ghost predicate Mirrored()
      reads bitmapUp, bitmapDown
      requires Layout()
    {
      forall p: nat :: p < UNITS ==> (p in Bits(bitmapUp[..]) <==> UNITS - 1 - p in Bits(bitmapDown[..]))
    }

    method SetUnit(p: nat)
      requires Layout() && Mirrored() && p < UNITS && p !in Bits(bitmapUp[..])
      modifies bitmapUp, bitmapDown
      ensures Mirrored() && Bits(bitmapUp[..]) == Bits(old(bitmapUp[..])) + {p}
    {
      var q := UNITS - 1 - p;
      assert q !in Bits(bitmapDown[..]);
      BitmapSet(bitmapUp, p);
      BitmapSet(bitmapDown, q);
    }

    method ClearUnit(p: nat)
      requires Layout() && Mirrored() && p < UNITS && p in Bits(bitmapUp[..])
      modifies bitmapUp, bitmapDown
      ensures Mirrored() && Bits(bitmapUp[..]) == Bits(old(bitmapUp[..])) - {p}
    {
      var q := UNITS - 1 - p;
      assert q in Bits(bitmapDown[..]);
      BitmapClear(bitmapUp, p);
      BitmapClear(bitmapDown, q);
    }

    /** find_next_medium_unit: the first unit start from `p` up, or the number of pages. */
    method FindNext(p: nat) returns (r: nat)
      requires Layout() && p < UNITS
      ensures p <= r <= UNITS && (forall j: nat :: p <= j < r ==> j !in Bits(bitmapUp[..]))
      ensures r < UNITS ==> r in Bits(bitmapUp[..])
    {
      r := BitmapFfsp(bitmapUp, p, UNITS);
    }

    /** find_prev_medium_unit: the last unit start from `p` down, or the number of pages. */
    method FindPrev(p: nat) returns (r: nat)
      requires Layout() && Mirrored() && p < UNITS
      ensures (r <= p && r in Bits(bitmapUp[..]) && (forall j: nat :: r < j <= p ==> j !in Bits(bitmapUp[..])))
        || (r == UNITS && forall j: nat :: j <= p ==> j !in Bits(bitmapUp[..]))
    {
      var q := UNITS - 1 - p;
      q := BitmapFfsp(bitmapDown, q, UNITS);
      forall j: nat | j <= p && (q == UNITS || UNITS - 1 - q < j) ensures j !in Bits(bitmapUp[..]) {
        assert UNITS - 1 - j !in Bits(bitmapDown[..]);
      }
      if q != UNITS {
        r := UNITS - 1 - q;
      } else {
        r := UNITS;
      }
    }

    /** The bitmaps say what the units say. */
    ghost predicate BitsAgree()
      reads bitmapType, bitmapUp, bitmapDown, this
    {
      && Layout() && Mirrored()
      && (forall p: int :: p in Starts(units) <==> p in Bits(bitmapUp[..]))
      && (forall p: int :: p in UsedStarts(units) <==> p in Bits(bitmapType[..]))
    }

    /** The tree holds exactly the free units, each under its size and start. */
    ghost predicate TreeAgrees()
      reads tree, this
    {
      && tree.Valid()
      && (forall p :: 1 <= p < UNITS ==> p in tree.nodes)
      && (forall p :: p in tree.Contents() <==> p in FreeStarts(units))
      && UnitNodes(tree.nodes, units)
    }

    /** The chunk's entry in the pool is keyed by the cached maximum and its arena. */
    ghost predicate Pooled()
      reads pool, this
    {
      && IsPool(pool) && pos in pool.Contents() && pos in pool.nodes
      && pool.nodes[pos].v.maxsize == maxSize * PAGE_SIZE && KeyOf(pool.nodes[pos].v, pos)
    }

    ghost predicate Valid()
      reads this, tree, pool, bitmapType, bitmapUp, bitmapDown
    {
      && pos > 0
      && Tiles(units, 1, UNITS) && Coalesced(units)
      && BitsAgree() && TreeAgrees() && Pooled()
      && freeSize == FreePages(units)
      && maxSize < UNITS
    }

    ghost predicate BySize()
    {
      forall a, b :: tree.cmp(a, b) == SizeIndexCompare(a, b)
    }

    ghost predicate AsWritten()
    {
      Written(tree.cmp)
    }

    /** The cached maximum is the largest free unit. */
    ghost predicate MaxTrue()
      reads this
    {
      maxSize == LargestFree(units)
    }

    /** The same, with the order by size. */
    ghost predicate MaxExact()
      reads this, tree
    {
      BySize() && tree.Ordered() && MaxTrue()
    }

    constructor (pos: int, pool: RBTree<ChunkKey>, tree: RBTree<MediumKey>, bitmapType: array<bv64>,
        bitmapUp: array<bv64>, bitmapDown: array<bv64>)
      ensures this.pos == pos && this.pool == pool && this.tree == tree
      ensures this.bitmapType == bitmapType && this.bitmapUp == bitmapUp && this.bitmapDown == bitmapDown
      ensures maxSize == freeSize == UNITS - 1 && units == [Block(1, UNITS - 1, false)]
    {
      this.pos, this.pool, this.tree := pos, pool, tree;
      this.bitmapType, this.bitmapUp, this.bitmapDown := bitmapType, bitmapUp, bitmapDown;
      maxSize, freeSize := UNITS - 1, UNITS - 1;
      units := [Block(1, UNITS - 1, false)];
    }

    /** The end of init_chunk_medium and the insertion into the pool. */
    method Start()
      requires pos > 0 && IsPool(pool) && pos !in pool.Contents() && pos in pool.nodes && pool.nodes[pos].s == pos
      requires pool.nodes[pos].v.maxsize == (UNITS - 1) * PAGE_SIZE && KeyOf(pool.nodes[pos].v, pos)
      requires maxSize == freeSize == UNITS - 1 && units == [Block(1, UNITS - 1, false)]
      requires tree.Valid() && tree.Contents() == [1] && UnitNodes(tree.nodes, units)
      requires forall p :: 1 <= p < UNITS ==> p in tree.nodes
      requires Layout() && Bits(bitmapType[..]) == Bits(bitmapUp[..]) == Bits(bitmapDown[..]) == {}
      modifies bitmapUp, bitmapDown, pool
      ensures Valid() && MaxTrue()
      ensures forall i :: i in pool.Contents() <==> i in old(pool.Contents()) || i == pos
      ensures OnlyLinks(old(pool.nodes), pool.nodes, Ids(old(pool.tree)) + {pos})
    {
      hide Bits, IsPool, Tiles, Coalesced, Starts, UsedStarts, FreeStarts, Live, FreePages, LargestFree;
      hide UnitNodes, RBTree.Valid, RBTree.Ordered;
      SetUnit(1);
      OneBlockViews(Block(1, UNITS - 1, false));
      AddToPool(pool, pos);
    }

    // ----- tree steps -----

    /** A free unit enters the tree. */
    method InsertUnit(index: uint16, size: uint16)
      requires tree.Valid() && index > 0 && index in tree.nodes && index !in tree.Contents()
      modifies tree
      ensures tree.Valid() && tree.nodes.Keys == old(tree.nodes.Keys)
      ensures forall p :: p in tree.Contents() <==> p in old(tree.Contents()) || p == index
      ensures tree.nodes[index].s == index && tree.nodes[index].v == MediumKey(size, index)
      ensures SameKeys(old(tree.nodes), tree.nodes, old(tree.nodes.Keys) - {index})
      ensures BySize() && old(tree.Ordered()) ==> tree.Ordered()
      ensures Lowest(index) ==> First(tree.Contents()) == index
      ensures AsWritten() ==> LastJoined(old(tree.nodes), old(tree.Contents()), tree.Contents(), index, size)
    {
      hide InsertedAt, Sorted, RBTree.Valid, SizeIndexCompare, Lowest, First, LastJoined, Written;
      ghost var m0, s := tree.nodes, tree.Contents();
      tree.Write(index, tree.nodes[index].(v := MediumKey(size, index), s := index));
      ghost var m := tree.nodes;
      ghost var k, rounds := tree.Insert(index);
      InsertedMembers(m, tree.cmp, s, tree.Contents(), index, k);
      if BySize() && Sorted(m0, tree.cmp, s) {
        SizeIndexPreorder(tree.cmp);
        SortedKeep(m0, m, tree.cmp, s);
        InsertKeepsOrder(m, tree.nodes, tree.cmp, s, tree.Contents(), index, k);
      }
      if Lowest(index) { LowestFirst(m, s, index, k); }
      if AsWritten() { JoinedLast(m0, m, tree.cmp, s, tree.Contents(), index, k); }
    }

    /** No other unit of the tree compares below unit `n`. */
    ghost predicate Lowest(n: int)
      reads tree
    {
      LowestOf(tree.nodes, tree.cmp, tree.Contents(), n)
    }

    /** Whatever the comparator, such a unit is put first. */
    lemma LowestFirst(m: Memory<MediumKey>, s: seq<int>, n: int, k: nat)
      requires Lowest(n) && InsertedAt(m, tree.cmp, s, tree.Contents(), n, k) && n !in s
      requires forall p :: p in tree.Contents() <==> p in s || p == n
      requires n in m && m.Keys == tree.nodes.Keys && SameKeys(m, tree.nodes, m.Keys)
      ensures First(tree.Contents()) == n
    {
      hide InsertedAt;
      InsertedFirst(m, tree.cmp, s, tree.Contents(), n, k);
    }

    /** A free unit leaves the tree. */
    method DeleteUnit(n: int)
      requires tree.Valid() && n in tree.Contents()
      modifies tree
      ensures tree.Valid() && tree.nodes.Keys == old(tree.nodes.Keys)
      ensures forall p :: p in tree.Contents() <==> p in old(tree.Contents()) && p != n
      ensures SameKeys(old(tree.nodes), tree.nodes, old(tree.nodes.Keys))
      ensures old(tree.Ordered()) ==> tree.Ordered()
      ensures n != First(old(tree.Contents())) ==> First(tree.Contents()) == First(old(tree.Contents()))
      ensures n != Last(old(tree.Contents())) ==> Last(tree.Contents()) == Last(old(tree.Contents()))
    {
      ghost var m, s := tree.nodes, tree.Contents();
      tree.MemberKnown(n);
      ghost var k, rounds := tree.Delete(n);
      RemovedMembers(s, tree.Contents(), n, k);
      if Sorted(m, tree.cmp, s) {
        RemoveKeepsOrder(m, tree.nodes, tree.cmp, s, tree.Contents(), n, k);
      }
    }

    /** The node of a unit that is no longer free is cleared. */
    method ClearNode(n: int)
      requires tree.Valid() && n > 0 && n in tree.nodes && n !in tree.Contents()
      modifies tree
      ensures tree.Valid() && tree.nodes.Keys == old(tree.nodes.Keys) && tree.Contents() == old(tree.Contents())
      ensures SameKeys(old(tree.nodes), tree.nodes, old(tree.nodes.Keys) - {n})
      ensures old(tree.Ordered()) ==> tree.Ordered()
    {
      ghost var m, s := tree.nodes, tree.Contents();
      tree.Write(n, tree.nodes[n].(v := MediumKey(0, 0), s := 0));
      if Sorted(m, tree.cmp, s) {
        SortedKeep(m, tree.nodes, tree.cmp, s);
      }
    }

    // ----- the cached maximum -----

    /** The size of the last unit in tree order, 0 for an empty tree. */
    ghost function LastSize(): int
      reads tree
    {
      SizeOfLast(tree.nodes, tree.Contents())
    }

    /** check_chunk_medium_max */
    method CheckMax(newMax: nat)
      requires Valid() && newMax < UNITS
      modifies this`maxSize, pool
      ensures Valid() && maxSize == if newMax != 0 then newMax else LastSize()
      ensures SamePool(old(pool.Contents()), old(pool.nodes), pool.Contents(), pool.nodes, pos)
    {
      hide Bits, Tiles, Coalesced, Starts, UsedStarts, FreeStarts, FreePages, LargestFree, IsPool;
      hide RBTree.Valid, RBTree.Shape;
      var s := newMax;
      if s == 0 {
        var n := tree.Max();
        tree.AllKnown();
        s := if n == RB_NULL then 0 else tree.nodes[n].v.size;
        if n != RB_NULL { SizeBound(n); }
      }
      if maxSize != s {
        UpdateChunkPool(pool, pos, s * PAGE_SIZE);
        maxSize := s;
      }
    }

    lemma SizeBound(n: int)
      requires Tiles(units, 1, UNITS) && TreeAgrees() && n in tree.Contents()
      ensures n in tree.nodes && 0 < tree.nodes[n].v.size < UNITS && tree.nodes[n].s == n && tree.nodes[n].v.index == n
    {
      TilesBounds(units, 1, UNITS);
      var pre, blk, post := MediumUnits.Locate(units, 1, UNITS, n);
      FreeUnitNode(tree.nodes, pre, blk, post);
      TilesBounds(post, n + blk.len, UNITS);
    }

    /** The last unit is a largest one exactly if no unit of the tree is larger, whatever the order. */
    lemma LastTrue()
      requires Tiles(units, 1, UNITS) && TreeAgrees()
      ensures LastSize() == LargestFree(units) <==>
        forall p {:trigger p in tree.Contents()} :: p in tree.Contents() && p in tree.nodes ==>
          tree.nodes[p].v.size <= LastSize()
      ensures tree.Contents() != [] ==> LastSize() <= LargestFree(units)
    {
      hide Tiles, LargestFree, UnitNodes, RBTree.Valid;
      var s := tree.Contents();
      tree.AllKnown();
      LargestNode(tree.nodes, units, 1, UNITS);
      if s == [] {
        assert FreeStarts(units) == {} by { assert forall p :: p in FreeStarts(units) ==> p in s; }
      } else {
        assert Last(s) in s;
        var p :| p in FreeStarts(units) && tree.nodes[p].v.size == LargestFree(units);
        assert p in s;
      }
    }

    /** In the order by size the last unit is a largest one. */
    lemma LastIsLargest()
      requires Tiles(units, 1, UNITS) && TreeAgrees() && BySize() && tree.Ordered()
      ensures LastSize() == LargestFree(units)
    {
      var s := tree.Contents();
      LargestNode(tree.nodes, units, 1, UNITS);
      if s == [] {
        assert FreeStarts(units) == {} by { assert forall p :: p in FreeStarts(units) ==> p in s; }
      } else {
        var l := s[|s| - 1];
        assert l in s && l in FreeStarts(units);
        var p :| p in FreeStarts(units) && tree.nodes[p].v.size == LargestFree(units);
        assert p in s;
        var i :| 0 <= i < |s| && s[i] == p;
        if i < |s| - 1 { assert tree.cmp(tree.nodes[s[i]].v, tree.nodes[l].v) <= 0; }
      }
    }

    // ----- malloc -----

    /** The tree part of an allocation. */
    method AllocateInTree(n: int, size: nat)
      requires tree.Valid() && n in tree.Contents() && n in tree.nodes && 0 < size <= tree.nodes[n].v.size && n > 0
      requires tree.nodes[n].v.size > size ==>
        n + size < 0x1_0000 && n + size in tree.nodes && n + size !in tree.Contents()
      modifies tree
      ensures tree.Valid() && tree.nodes.Keys == old(tree.nodes.Keys)
      ensures var len, next := old(tree.nodes)[n].v.size, n + size;
        && (forall p :: p in tree.Contents() <==> (p in old(tree.Contents()) && p != n) || (len > size && p == next))
        && SameKeys(old(tree.nodes), tree.nodes, old(tree.nodes.Keys) - if len > size then {next} else {})
        && (len > size ==> UnitNode(tree.nodes, Block(next, len - size, false)))
        && (len > size && Lowest(next) && tree.cmp(old(tree.nodes)[n].v, MediumKey(len - size, next)) >= 0 ==>
          First(tree.Contents()) == next)
      ensures BySize() && old(tree.Ordered()) ==> tree.Ordered()
      ensures Carved(tree.cmp, old(tree.nodes), old(tree.Contents()), tree.nodes, tree.Contents(), n, size)
    {
      hide RBTree.Valid, RBTree.Ordered, SizeIndexCompare, First, Last, LastJoined, Carved, Written, LowestOf;
      tree.AllKnown();
      ghost var m0, s0 := tree.nodes, tree.Contents();
      if tree.nodes[n].v.size > size {
        InsertUnit(n + size, tree.nodes[n].v.size - size);
        assert tree.nodes[n].v == m0[n].v;
        assert Lowest(n + size) <==> LowestOf(tree.nodes, tree.cmp, tree.Contents(), n + size);
      }
      ghost var m1, s1 := tree.nodes, tree.Contents();
      DeleteUnit(n);
      LowestWithout(m1, tree.nodes, tree.cmp, s1, tree.Contents(), n + size, n);
      CarvedLast(tree.cmp, m0, s0, s1, tree.nodes, tree.Contents(), n, size);
    }

    /** The bitmap part of an allocation. */
    method AllocateInBits(n: nat, size: nat, split: bool, ghost u: seq<Block>)
      requires BitsAgree() && n < UNITS && (split ==> n + size < UNITS && n + size !in Starts(units))
      requires Starts(u) == Starts(units) + (if split then {n + size} else {})
      requires UsedStarts(u) == UsedStarts(units) + {n}
      modifies this`units, bitmapType, bitmapUp, bitmapDown
      ensures BitsAgree() && units == u
    {
      hide Bits, Starts, UsedStarts;
      if split {
        SetUnit(n + size);
      }
      BitmapSet(bitmapType, n);
      units := u;
    }

    /** The rest of a split unit is first in the tree if nothing compares below it, the split
        unit included. */
    ghost predicate RestFirst(key: MediumKey, n: int, size: nat)
      reads tree
    {
      n >= 0 && key.size > size && n + size < 0x1_0000 && Lowest(n + size)
        && tree.cmp(key, MediumKey(key.size - size, n + size)) >= 0
      ==> First(tree.Contents()) == n + size
    }

    /** What an allocation of `size` pages at `n` makes of the units. */
    lemma Allocation(n: int, size: nat) returns (pre: seq<Block>, post: seq<Block>, u: seq<Block>)
      requires Valid() && n in tree.Contents() && n in tree.nodes && 0 < size <= tree.nodes[n].v.size
      ensures var len, next: int := tree.nodes[n].v.size, n + size;
        var rest := if len > size then {next} else {};
        && 0 < n < n + len <= UNITS && tree.nodes[n].s == n && tree.nodes[n].v.index == n
        && Tiles(pre, 1, n) && Tiles(post, n + len, UNITS) && UnitNodes(tree.nodes, pre) && UnitNodes(tree.nodes, post)
        && units == pre + [Block(n, len, false)] + post && u == pre + CarvedMid(n, len, size) + post
        && Tiles(u, 1, UNITS) && Coalesced(u) && (forall p :: p in rest ==> p !in Starts(units))
        && Starts(u) == Starts(units) + rest && UsedStarts(u) == UsedStarts(units) + {n}
        && FreeStarts(u) == FreeStarts(units) + rest - {n}
        && n !in Live(units) && Live(u) == Live(units)[n := size]
        && FreePages(u) == FreePages(units) - size >= 0
    {
      hide Bits, Tiles, Coalesced, Starts, UsedStarts, FreeStarts, Live, FreePages, LargestFree, CarvedMid, UnitNodes;
      hide RBTree.Valid;
      TilesBounds(units, 1, UNITS);
      SizeBound(n);
      var blk;
      pre, blk, post := MediumUnits.Locate(units, 1, UNITS, n);
      FreeUnitNode(tree.nodes, pre, blk, post);
      var len: int := tree.nodes[n].v.size;
      assert blk == Block(n, len, false);
      TilesBounds(post, n + len, UNITS);
      Carve(pre, n, len, size, post, 1, UNITS);
      u := pre + CarvedMid(n, len, size) + post;
      TilesBounds(u, 1, UNITS);
    }

    /** The free unit `n` gives its first `size` pages away; the cached maximum is not looked at. */
    method AllocateUnit(n: int, size: nat) returns (ghost pre: seq<Block>, ghost post: seq<Block>)
      requires Valid() && n in tree.Contents() && n in tree.nodes && 0 < size <= tree.nodes[n].v.size
      modifies this`freeSize, this`units, tree, bitmapType, bitmapUp, bitmapDown
      ensures Valid()
      ensures n > 0 && n in tree.nodes && n !in tree.Contents() && tree.nodes[n].s == n
      ensures tree.nodes[n].v == old(tree.nodes)[n].v
      ensures var len := tree.nodes[n].v.size;
        && old(units) == pre + [Block(n, len, false)] + post && units == pre + CarvedMid(n, len, size) + post
        && Tiles(pre, 1, n) && Tiles(post, n + len, UNITS)
        && n !in Live(old(units)) && Live(units) == Live(old(units))[n := size]
        && RestFirst(old(tree.nodes)[n].v, n, size)
      ensures BySize() && old(tree.Ordered()) ==> tree.Ordered()
      ensures Carved(tree.cmp, old(tree.nodes), old(tree.Contents()), tree.nodes, tree.Contents(), n, size)
    {
      hide First, Lowest, Carved;
      hide Bits, Tiles, Coalesced, Starts, UsedStarts, FreeStarts, Live, FreePages, LargestFree, CarvedMid, UnitNodes;
      hide IsPool;
      hide RBTree.Valid, RBTree.Ordered, BySize, Mirrored;
      ghost var u;
      pre, post, u := Allocation(n, size);
      ghost var m := tree.nodes;
      var split := tree.nodes[n].v.size > size;
      TilesBounds(units, 1, UNITS);
      AllocateInTree(n, size);
      AllocateInBits(n, size, split, u);
      freeSize := freeSize - size;
      CarvedNodes(m, tree.nodes, pre, n, m[n].v.size, size, post);
    }

    /** The unit the search of malloc_chunk_medium comes to, 0 for none. */
    ghost function Found(size: uint16): int
      reads tree
    {
      Lower(tree.nodes, tree.cmp, tree.tree, MediumKey(size, 0))
    }

    /** The assertions after the search hold. */
    ghost predicate Serves(size: uint16)
      reads tree
    {
      Found(size) in tree.nodes && Found(size) != RB_NULL && tree.nodes[Found(size)].v.size >= size
    }

    /** The free unit `n` gives its first `size` pages away, and the cached maximum is adjusted. */
    method CarveUnit(n: int, size: nat)
      requires Valid() && n in tree.Contents() && n in tree.nodes && 0 < size <= tree.nodes[n].v.size
      modifies this`freeSize, this`units, this`maxSize, tree, bitmapType, bitmapUp, bitmapDown, pool
      ensures Valid() && n > 0 && n in tree.nodes && n !in tree.Contents()
      ensures n !in Live(old(units)) && Live(units) == Live(old(units))[n := size]
      ensures RestFirst(old(tree.nodes)[n].v, n, size)
      ensures maxSize == if old(tree.nodes)[n].v.size >= old(maxSize) then LastSize() else old(maxSize)
      ensures SamePool(old(pool.Contents()), old(pool.nodes), pool.Contents(), pool.nodes, pos)
      ensures BySize() && old(tree.Ordered()) ==> tree.Ordered()
      ensures old(MaxTrue()) ==>
        (MaxTrue() <==> old(tree.nodes)[n].v.size < old(maxSize) || LastSize() == LargestFree(units))
      ensures Carved(tree.cmp, old(tree.nodes), old(tree.Contents()), tree.nodes, tree.Contents(), n, size)
    {
      hide First, Lowest, Carved, RestFirst, SizeOfLast;
      hide Bits, Tiles, Coalesced, Starts, UsedStarts, FreeStarts, Live, FreePages, LargestFree, CarvedMid, UnitNodes;
      hide IsPool, UnitNode;
      hide RBTree.Valid, RBTree.Ordered, BySize, Mirrored;
      ghost var pre, post := AllocateUnit(n, size);
      LargestAfter(pre, post, n, tree.nodes[n].v.size, size);
      if tree.nodes[n].v.size >= maxSize {
        CheckMax(0);
      }
    }

    /** What an allocation keeps, whatever the comparator, and what the order by size adds. */
    method TakeUnit(n: int, size: nat)
      requires Valid() && n in tree.Contents() && n in tree.nodes && 0 < size <= tree.nodes[n].v.size
      modifies this`freeSize, this`units, this`maxSize, tree, bitmapType, bitmapUp, bitmapDown, pool
      ensures Valid()
      ensures n !in Live(old(units)) && Live(units) == Live(old(units))[n := size]
      ensures RestFirst(old(tree.nodes)[n].v, n, size)
      ensures maxSize == if old(tree.nodes)[n].v.size >= old(maxSize) then LastSize() else old(maxSize)
      ensures SamePool(old(pool.Contents()), old(pool.nodes), pool.Contents(), pool.nodes, pos)
      ensures old(MaxExact()) ==> MaxExact()
      ensures old(MaxTrue()) ==>
        (MaxTrue() <==> old(tree.nodes)[n].v.size < old(maxSize) || LastSize() == LargestFree(units))
      ensures Carved(tree.cmp, old(tree.nodes), old(tree.Contents()), tree.nodes, tree.Contents(), n, size)
    {
      hide First, LowestOf, Carved, SizeOfLast;
      hide Bits, Tiles, Coalesced, Starts, UsedStarts, FreeStarts, Live, FreePages, LargestFree, UnitNodes, IsPool;
      hide RBTree.Valid, RBTree.Ordered, BySize, Mirrored;
      ghost var m0, s0 := tree.nodes, tree.Contents();
      CarveUnit(n, size);
      if BySize() && tree.Ordered() { LastIsLargest(); }
      ghost var m, s := tree.nodes, tree.Contents();
      ForgetNode(n);
      LowestFrame(m, tree.nodes, tree.cmp, s, n + size, n);
      CarvedFrame(tree.cmp, m0, s0, m, tree.nodes, s, n, size);
    }

    /** clear node info for safe */
    method ForgetNode(n: int)
      requires Valid() && n > 0 && n in tree.nodes && n !in tree.Contents()
      modifies tree
      ensures Valid() && tree.nodes.Keys == old(tree.nodes.Keys) && tree.Contents() == old(tree.Contents())
      ensures SameKeys(old(tree.nodes), tree.nodes, old(tree.nodes.Keys) - {n})
      ensures LastSize() == old(LastSize()) && (old(tree.Ordered()) ==> tree.Ordered())
    {
      hide Bits, Tiles, Coalesced, Starts, UsedStarts, FreeStarts, Live, FreePages, LargestFree, UnitNodes, IsPool;
      hide UnitNode;
      hide RBTree.Valid, RBTree.Ordered, Mirrored;
      ghost var m := tree.nodes;
      ClearNode(n);
      UnitNodesFrame(m, tree.nodes, units);
      assert tree.Contents() != [] ==> Last(tree.Contents()) in tree.Contents();
    }

    /** The largest free unit after an allocation that did not take a largest one. */
    lemma LargestAfter(pre: seq<Block>, post: seq<Block>, n: int, len: nat, size: nat)
      requires units == pre + CarvedMid(n, len, size) + post && 0 < size <= len
      ensures LargestFree(pre + [Block(n, len, false)] + post) > len ==>
        LargestFree(units) == LargestFree(pre + [Block(n, len, false)] + post)
    {
      hide Tiles, LargestFree, CarvedMid;
      CarvedMidViews(n, len, size);
      OneBlockViews(Block(n, len, false));
      ViewsOfThree(pre, CarvedMid(n, len, size), post);
      ViewsOfThree(pre, [Block(n, len, false)], post);
    }

    /** malloc_chunk_medium. A failed assertion ends the process and leaves the chunk as it was. */
    method Malloc(len: nat) returns (r: MallocResult)
      requires Valid() && 0 < len <= (UNITS - 1) * PAGE_SIZE
      modifies this, tree, bitmapType, bitmapUp, bitmapDown, pool
      ensures Valid()
      ensures r.Allocated? <==> old(Serves(PagesFor(len)))
      ensures r.AssertionFailed? ==> unchanged(this, tree, bitmapType, bitmapUp, bitmapDown, pool)
      ensures r.Allocated? ==> var p := old(Found(PagesFor(len)));
        && r.pos == pos + p * PAGE_SIZE && p !in Live(old(units)) && Live(units) == Live(old(units))[p := PagesFor(len)]
        && RestFirst(old(tree.nodes)[p].v, p, PagesFor(len))
        && maxSize == (if old(tree.nodes)[p].v.size >= old(maxSize) then LastSize() else old(maxSize))
        && (old(MaxTrue()) ==> (MaxTrue() <==>
          old(tree.nodes)[p].v.size < old(maxSize) || LastSize() == LargestFree(units)))
      ensures r.Allocated? && AsWritten() && old(MaxTrue()) ==> (MaxTrue() <==> old(KeepsMaximum(PagesFor(len))))
      ensures SamePool(old(pool.Contents()), old(pool.nodes), pool.Contents(), pool.nodes, pos)
      ensures old(MaxExact()) ==> MaxExact()
    {
      hide Bits, Tiles, Coalesced, Starts, UsedStarts, FreeStarts, Live, FreePages, LargestFree, UnitNodes, IsPool;
      hide RBTree.Valid, RBTree.Ordered, BySize, Mirrored, AlignSize;
      var size := PagesFor(len);
      PagesForExact(len);
      var n, rounds := tree.FindLower(MediumKey(size, 0));
      tree.AllKnown();
      LowerFits(tree.nodes, tree.cmp, tree.tree, MediumKey(size, 0));
      if n == RB_NULL {
        return AssertionFailed;
      }
      if !(tree.nodes[n].v.size >= size && tree.nodes[n].v.index == tree.nodes[n].s) {
        SizeBound(n);
        return AssertionFailed;
      }
      r := Allocated(pos + tree.nodes[n].s * PAGE_SIZE);
      ghost var m0, s0 := tree.nodes, tree.Contents();
      if AsWritten() { ServesAsWritten(size); }
      TakeUnit(n, size);
      if AsWritten() { WrittenLast(m0, s0, n, size); }
    }

    /** With the comparator as written the first unit of the tree gives `size` pages. The cached maximum
        stays true if that one was smaller, or if in what is left no unit is larger than the last one. */
    ghost predicate KeepsMaximum(size: nat)
      reads this, tree
    {
      var s := tree.Contents();
      (First(s) in tree.nodes && tree.nodes[First(s)].v.size < maxSize) || LastIsNext(tree.nodes, s, size)
    }

    /** After an allocation from the first unit the last one is a largest one exactly if the units
        before it say so. */
    lemma WrittenLast(m0: Memory<MediumKey>, s0: seq<int>, n: int, size: nat)
      requires Tiles(units, 1, UNITS) && TreeAgrees() && AsWritten()
      requires Carved(tree.cmp, m0, s0, tree.nodes, tree.Contents(), n, size)
      requires NoDuplicates(s0) && n == First(s0) && (forall p :: p in s0 ==> p in m0) && size <= m0[n].v.size
      ensures LastSize() == LargestFree(units) <==> LastIsNext(m0, s0, size)
    {
      hide Tiles, LargestFree, UnitNodes, RBTree.Valid;
      LastTrue();
      var m, s, last := tree.nodes, tree.Contents(), LastSize();
      if |s0| == 1 {
        assert s0 == [n];
        assert forall p :: p in s ==> p == n + size;
      } else {
        assert last == SizeOfLast(m0, s0);
        if LastIsNext(m0, s0, size) {
          forall p | p in s && p in m ensures m[p].v.size <= last { assert p == n + size || p in s0; }
        }
        if forall p {:trigger p in s} :: p in s && p in m ==> m[p].v.size <= last {
          forall p | p in s0 && p != n && p in m0 ensures m0[p].v.size <= last { assert p in s; }
          if m0[n].v.size > size { assert n + size in s; }
        }
      }
    }

    // ----- free -----

    /** In the middle of a deallocation in the units `u`: the starts in `gone` have left the
        unit bitmaps and the tree, the type bitmap holds `used`, and the other free units are
        still described as they were in `m`. */
    ghost predicate Interim(u: seq<Block>, gone: set<int>, used: set<int>, m: Memory<MediumKey>)
      reads this, tree, bitmapType, bitmapUp, bitmapDown
    {
      && Layout() && Mirrored() && tree.Valid()
      && (forall p: int :: p in Bits(bitmapUp[..]) <==> p in Starts(u) && p !in gone)
      && (forall p: int :: p in Bits(bitmapType[..]) <==> p in used)
      && (forall p :: 1 <= p < UNITS ==> p in tree.nodes)
      && (forall p :: p in tree.Contents() <==> p in FreeStarts(u) && p !in gone)
      && tree.nodes.Keys == m.Keys && SameKeys(m, tree.nodes, m.Keys - gone)
    }

    /** A free neighbour leaves the tree and the bitmaps. */
    method Absorb(n: nat, ghost u: seq<Block>, ghost gone: set<int>, ghost used: set<int>, ghost m: Memory<MediumKey>)
      returns (size: nat)
      requires Interim(u, gone, used, m) && 1 <= n < UNITS && n in FreeStarts(u) && n in Starts(u) && n !in gone
      requires n in m
      modifies tree, bitmapUp, bitmapDown
      ensures Interim(u, gone + {n}, used, m) && size == m[n].v.size
      ensures BySize() && old(tree.Ordered()) ==> tree.Ordered()
    {
      hide Bits, Starts, FreeStarts, RBTree.Valid, RBTree.Ordered, RBTree.Contents, Mirrored;
      size := tree.nodes[n].v.size;
      DeleteUnit(n);
      ClearUnit(n);
      ClearNode(n);
    }

    /** Merging with the next unit. */
    method AbsorbNext(curr: nat, ghost pre: seq<Block>, ghost blk: Block, ghost post: seq<Block>, ghost used: set<int>,
        ghost m: Memory<MediumKey>)
      returns (currSize: nat, size: nat)
      requires CanRelease(pre, blk, post, 1, UNITS) && curr == blk.start
      requires used == UsedStarts(pre + [blk] + post) - {curr}
      requires Interim(pre + [blk] + post, {curr}, used, m) && UnitNodes(m, pre + [blk] + post)
      modifies tree, bitmapUp, bitmapDown
      ensures Interim(pre + [blk] + post, {curr} + MergeNext(blk, post).2, used, m)
      ensures currSize == blk.len && size == MergeNext(blk, post).0.len
      ensures BySize() && old(tree.Ordered()) ==> tree.Ordered()
    {
      hide Bits, Starts, UsedStarts, FreeStarts, RBTree.Valid, RBTree.Ordered, RBTree.Contents, Mirrored, Coalesced;
      hide Tiles, CanRelease;
      ghost var u := pre + [blk] + post;
      Neighbours(pre, blk, post, 1, UNITS);
      var next := FindNext(curr);
      currSize := next - curr;
      size := currSize;
      if next != UNITS {
        var nextUsed := BitmapGet(bitmapType, next);
        if !nextUsed {
          NextNode(m, pre, blk, post);
          var nextSize := Absorb(next, u, {curr}, used, m);
          size := size + nextSize;
        }
      }
    }

    /** Merging with the previous unit; `size` is what has come together so far. */
    method AbsorbPrev(curr: nat, size: nat, ghost pre: seq<Block>, ghost blk: Block, ghost post: seq<Block>,
        ghost gone: set<int>, ghost used: set<int>,
                      ghost m: Memory<MediumKey>)
      returns (index: nat, size': nat)
      requires CanRelease(pre, blk, post, 1, UNITS) && curr == blk.start
      requires used == UsedStarts(pre + [blk] + post) - {curr}
      requires curr in gone && (forall p :: p in gone ==> p >= curr)
      requires Interim(pre + [blk] + post, gone, used, m) && UnitNodes(m, pre + [blk] + post)
      modifies tree, bitmapUp, bitmapDown
      ensures Interim(pre + [blk] + post, gone + MergePrev(Block(curr, size, false), pre).2, used, m)
      ensures index == MergePrev(Block(curr, size, false), pre).0.start
      ensures size' == MergePrev(Block(curr, size, false), pre).0.len
      ensures BySize() && old(tree.Ordered()) ==> tree.Ordered()
    {
      hide Bits, Starts, UsedStarts, FreeStarts, RBTree.Valid, RBTree.Ordered, RBTree.Contents, Mirrored, Coalesced;
      hide Tiles, CanRelease;
      ghost var u := pre + [blk] + post;
      Neighbours(pre, blk, post, 1, UNITS);
      index, size' := curr, size;
      var prev := FindPrev(curr);
      if prev != UNITS {
        var prevUsed := BitmapGet(bitmapType, prev);
        if !prevUsed {
          PrevNode(m, pre, blk, post);
          var prevSize := Absorb(prev, u, gone, used, m);
          index, size' := prev, size + prevSize;
        }
      }
    }

    /** The start of a deallocation. */
    method BeginRelease(curr: nat)
      requires Valid() && curr in UsedStarts(units) && curr < UNITS
      modifies bitmapType, bitmapUp, bitmapDown
      ensures Interim(units, {curr}, UsedStarts(units) - {curr}, tree.nodes)
    {
      hide Bits, Starts, UsedStarts, FreeStarts, RBTree.Valid, RBTree.Contents, Mirrored, Coalesced, Tiles, UnitNodes;
      hide IsPool;
      TilesBounds(units, 1, UNITS);
      ClearUnit(curr);
      BitmapClear(bitmapType, curr);
    }

    /** The end of a deallocation: the merged unit enters the tree and the bitmaps. */
    method EndRelease(index: nat, size: nat, ghost u: seq<Block>, ghost gone: set<int>, ghost used: set<int>,
        ghost m: Memory<MediumKey>, ghost v: seq<Block>)
      requires Interim(u, gone, used, m) && 1 <= index < UNITS && size < UNITS
      requires index !in Starts(u) - gone && index !in FreeStarts(u) - gone
      requires Starts(v) == Starts(u) - gone + {index} && UsedStarts(v) == used
      requires FreeStarts(v) == FreeStarts(u) - gone + {index}
      modifies this`units, tree, bitmapUp, bitmapDown
      ensures units == v && BitsAgree() && tree.Valid()
      ensures (forall p :: 1 <= p < UNITS ==> p in tree.nodes)
      ensures (forall p :: p in tree.Contents() <==> p in FreeStarts(v))
      ensures SameKeys(m, tree.nodes, m.Keys - gone - {index}) && UnitNode(tree.nodes, Block(index, size, false))
      ensures BySize() && old(tree.Ordered()) ==> tree.Ordered()
      ensures Lowest(index) ==> First(tree.Contents()) == index
      ensures index in tree.nodes && tree.nodes[index].v.size == size
    {
      hide Lowest, First;
      hide Bits, Starts, UsedStarts, FreeStarts, RBTree.Valid, RBTree.Ordered, RBTree.Contents, Mirrored;
      InsertUnit(index, size);
      SetUnit(index);
      units := v;
    }

    /** The free neighbours on both sides join the unit at `curr`. */
    method AbsorbBoth(curr: nat, ghost pre: seq<Block>, ghost blk: Block, ghost post: seq<Block>, ghost used: set<int>,
        ghost m: Memory<MediumKey>)
      returns (currSize: nat, index: nat, size: nat)
      requires CanRelease(pre, blk, post, 1, UNITS) && curr == blk.start
      requires used == UsedStarts(pre + [blk] + post) - {curr}
      requires Interim(pre + [blk] + post, {curr}, used, m) && UnitNodes(m, pre + [blk] + post)
      modifies tree, bitmapUp, bitmapDown
      ensures Interim(pre + [blk] + post, {curr} + Merge(pre, blk, post).gone, used, m)
      ensures var unit := Merge(pre, blk, post).unit; currSize == blk.len && index == unit.start && size == unit.len
      ensures BySize() && old(tree.Ordered()) ==> tree.Ordered()
    {
      hide *;
      MergeIs(pre, blk, post);
      MergeParts(pre, blk, post, 1, UNITS);
      currSize, size := AbsorbNext(curr, pre, blk, post, used, m);
      ghost var gone := {curr} + MergeNext(blk, post).2;
      index, size := AbsorbPrev(curr, size, pre, blk, post, gone, used, m);
      assert gone + MergePrev(MergeNext(blk, post).0, pre).2 == {curr} + Merge(pre, blk, post).gone;
    }

    /** The block `blk` becomes free; the cached maximum is not looked at. */
    method ReleaseUnit(curr: nat, ghost pre: seq<Block>, ghost blk: Block, ghost post: seq<Block>) returns (size: nat)
      requires Valid() && curr == blk.start && CanRelease(pre, blk, post, 1, UNITS) && units == pre + [blk] + post
      modifies this`freeSize, this`units, tree, bitmapType, bitmapUp, bitmapDown
      ensures Valid() && units == Released(pre, blk, post) && size == Merge(pre, blk, post).unit.len < UNITS
      ensures BySize() && old(tree.Ordered()) ==> tree.Ordered()
      ensures var n := Merge(pre, blk, post).unit.start;
        (Lowest(n) ==> First(tree.Contents()) == n) && n in tree.nodes && tree.nodes[n].v.size == size
    {
      hide Lowest, First;
      hide Bits, Starts, UsedStarts, FreeStarts, RBTree.Valid, RBTree.Ordered, RBTree.Contents, Mirrored, Coalesced;
      hide Tiles, UnitNodes, IsPool;
      hide FreePages, LargestFree, Live, Released, Merge, MergeNext, MergePrev, CanRelease, UnitNode;
      ghost var m, u := tree.nodes, units;
      ReleaseStarts(pre, blk, post, 1, UNITS);
      ReleaseTiles(pre, blk, post, 1, UNITS);
      MergeBounds(pre, blk, post, 1, UNITS);
      ghost var used := UsedStarts(u) - {curr};
      TilesBounds(u, 1, UNITS);
      BeginRelease(curr);
      var currSize, index;
      currSize, index, size := AbsorbBoth(curr, pre, blk, post, used, m);
      ghost var gone := {curr} + Merge(pre, blk, post).gone;
      EndRelease(index, size, u, gone, used, m, Released(pre, blk, post));
      freeSize := freeSize + currSize;
      ReleasedNodes(m, tree.nodes, pre, blk, post);
    }

    /** `offset` is the start of a live block. */
    ghost predicate LiveOffset(offset: uint32)
      reads this
    {
      offset % PAGE_SIZE == 0 && PageOf(offset) in Live(units)
    }

    /** free_chunk_medium. True exactly if the last live block has gone; anything but the start
        of a live block changes nothing. */
    method Free(offset: uint32) returns (r: bool)
      requires Valid()
      modifies this`freeSize, this`units, this`maxSize, tree, bitmapType, bitmapUp, bitmapDown, pool
      ensures Valid()
      ensures old(LiveOffset(offset)) ==> Live(units) == Live(old(units)) - {PageOf(offset)}
      ensures !old(LiveOffset(offset)) ==> unchanged(this, tree, bitmapType, bitmapUp, bitmapDown, pool)
      ensures r <==> old(LiveOffset(offset)) && Live(units) == map[]
      ensures old(LiveOffset(offset)) && PageOf(offset) in FreeStarts(units) ==>
        && (Lowest(PageOf(offset)) ==> First(tree.Contents()) == PageOf(offset))
        && PageOf(offset) in tree.nodes && maxSize == Max(old(maxSize), tree.nodes[PageOf(offset)].v.size)
      ensures SamePool(old(pool.Contents()), old(pool.nodes), pool.Contents(), pool.nodes, pos)
      ensures (old(MaxTrue()) ==> MaxTrue()) && (old(MaxExact()) ==> MaxExact())
    {
      hide Bits, Tiles, Coalesced, Starts, UsedStarts, FreeStarts, Live, FreePages, LargestFree, UnitNodes, IsPool;
      hide RBTree.Valid, RBTree.Ordered, BySize, Mirrored, PageOf, Released, Merge, Lowest, First;
      TilesBounds(units, 1, UNITS);
      var curr: nat := PageOf(offset);
      if curr >= UNITS || offset % PAGE_SIZE != 0 {
        return false;
      }
      var used := BitmapGet(bitmapType, curr);
      if !used {
        return false;
      }
      ghost var pre, blk, post := LocateUsed(curr);
      ReleaseShape(pre, blk, post, 1, UNITS);
      ReleaseStarts(pre, blk, post, 1, UNITS);
      var size := ReleaseUnit(curr, pre, blk, post);
      if size >= maxSize {
        CheckMax(size);
      }
      Conservation(units, 1, UNITS);
      return freeSize == UNITS - 1;
    }

    lemma LocateUsed(p: int) returns (pre: seq<Block>, blk: Block, post: seq<Block>)
      requires Tiles(units, 1, UNITS) && Coalesced(units) && p in UsedStarts(units)
      ensures units == pre + [blk] + post && blk.start == p && CanRelease(pre, blk, post, 1, UNITS)
      ensures blk.len > 0 && p in Live(units) && Live(units)[p] == blk.len
    {
      TilesBounds(units, 1, UNITS);
      pre, blk, post := MediumUnits.Locate(units, 1, UNITS, p);
      ViewsOfThree(pre, [blk], post);
      OneBlockViews(blk);
      TilesBounds(pre, 1, p);
      TilesBounds(post, p + blk.len, UNITS);
    }

    /** The bytes of the live block at `offset`, 0 if there is none: what a size query is for. */
    ghost function BlockBytes(offset: uint32): int
      reads this
    {
      if LiveOffset(offset) then Live(units)[PageOf(offset)] * PAGE_SIZE else 0
    }

    /** check_chunk_medium. It looks for the next unit start without first clearing the bit of the
        block itself, as free_chunk_medium does, and so finds the block itself: the answer is
        always 0, and right exactly when there is no live block at `offset`. */
    method CheckSize(offset: uint32) returns (r: nat)
      requires Valid()
      ensures r == 0
      ensures r == BlockBytes(offset) <==> !LiveOffset(offset)
    {
      hide Bits, Tiles, Coalesced, Starts, UsedStarts, FreeStarts, Live, FreePages, LargestFree, UnitNodes, IsPool;
      hide RBTree.Valid, Mirrored, PageOf, CanRelease;
      TilesBounds(units, 1, UNITS);
      var curr: nat := PageOf(offset);
      if LiveOffset(offset) { ghost var pre, blk, post := LocateUsed(curr); }
      if curr >= UNITS || offset % PAGE_SIZE != 0 {
        return 0;
      }
      var used := BitmapGet(bitmapType, curr);
      if !used {
        return 0;
      }
      var next := FindNext(curr);
      assert next == curr by { assert curr in Bits(bitmapUp[..]); }
      var currSize := next - curr;
      r := currSize * PAGE_SIZE;
    }

    /** `page` belongs to a live block. */
    ghost predicate OwnedPage(page: int)
      reads this
    {
      exists p :: p in Live(units) && p <= page < p + Live(units)[p]
    }

    /** A user writes anything into a page of a block it holds, where the tree links of a free
        unit could be. */
    method UserWrite(page: int, rec: NodeRec<MediumKey>)
      requires Valid() && OwnedPage(page)
      modifies tree
      ensures Valid() && unchanged(this)
      ensures old(MaxExact()) ==> MaxExact()
    {
      hide Bits, Tiles, Coalesced, Starts, UsedStarts, FreeStarts, Live, FreePages, LargestFree, UnitNodes, IsPool;
      hide RBTree.Valid, Mirrored, Sorted;
      ghost var p :| p in Live(units) && p <= page < p + Live(units)[p];
      OwnedNotFree(p, page);
      ghost var m, s := tree.nodes, tree.Contents();
      tree.Write(page, rec);
      UnitNodesFrame(m, tree.nodes, units);
      if Sorted(m, tree.cmp, s) { SortedKeep(m, tree.nodes, tree.cmp, s); }
    }

    lemma OwnedNotFree(p: int, page: int)
      requires Tiles(units, 1, UNITS) && Coalesced(units) && p in Live(units) && p <= page < p + Live(units)[p]
      ensures 1 <= page < UNITS && page !in FreeStarts(units)
    {
      hide Coalesced;
      TilesBounds(units, 1, UNITS);
      var pre, blk, post := LocateUsed(p);
      ViewsOfThree(pre, [blk], post);
      OneBlockViews(blk);
      TilesBounds(pre, 1, p);
      TilesBounds(post, p + blk.len, UNITS);
    }

    // ----- what the chunk promises -----

    /** In the order by size, the search finds a large enough unit if there is one. */
    lemma SearchBySize(size: uint16)
      requires tree.Valid() && BySize() && tree.Ordered() && size > 0
      ensures Found(size) != RB_NULL ==> Serves(size) && Found(size) in tree.Contents()
      ensures Found(size) == RB_NULL ==>
        forall p :: p in tree.Contents() && p in tree.nodes ==> tree.nodes[p].v.size < size
    {
      hide Sorted, Lower, Distinct, Rep, RedBlack;
      var m, v := tree.nodes, MediumKey(size, 0);
      assert TotalPreorder(tree.cmp) by { SizeIndexPreorder(tree.cmp); }
      tree.AllKnown();
      LowerComplete(m, tree.cmp, tree.tree, v);
      LowerFits(m, tree.cmp, tree.tree, v);
      assert forall n :: n in m ==> (Fits(m, tree.cmp, n, v) <==> m[n].v.size >= size);
    }

    /** With the order by size, the chunk serves exactly the requests its cached maximum admits. */
    lemma ServesExactly(size: uint16)
      requires Valid() && MaxExact() && size > 0
      ensures Serves(size) <==> size <= maxSize
    {
      hide RBTree.Valid, RBTree.Ordered, BySize, Tiles, Coalesced, UnitNodes, FreeStarts, LargestFree, Lower, Bits;
      hide IsPool, Mirrored;
      SearchBySize(size);
      LargestNode(tree.nodes, units, 1, UNITS);
    }

    /** With the comparator as written, every unit passes for large enough, the search takes the
        first one in tree order, and the assertions hold exactly if that one happens to fit. */
    lemma ServesAsWritten(size: uint16)
      requires Valid() && size > 0 && AsWritten()
      ensures Found(size) == First(tree.Contents())
      ensures var n := First(tree.Contents());
        Serves(size) <==> n in tree.nodes && n != RB_NULL && tree.nodes[n].v.size >= size
    {
      var m, v := tree.nodes, MediumKey(size, 0);
      tree.AllKnown();
      forall n | n in Ids(tree.tree) ensures Fits(m, tree.cmp, n, v) { assert n in tree.Contents(); }
      if tree.tree.Node? { LowerFirst(m, tree.cmp, tree.tree, v); }
    }

    /** When nothing is live the chunk is one free unit again, whatever order the blocks were freed in. */
    lemma AllFreed()
      requires Valid() && Live(units) == map[]
      ensures units == [Block(1, UNITS - 1, false)] && freeSize == UNITS - 1
      ensures MaxExact() ==> maxSize == UNITS - 1
    {
      EmptyChunk(units, 1, UNITS);
      OneBlockViews(units[0]);
    }
  }

  lemma ReleasedNodes(m: Memory<MediumKey>, m': Memory<MediumKey>, pre: seq<Block>, blk: Block, post: seq<Block>)
    requires CanRelease(pre, blk, post, 1, UNITS) && UnitNodes(m, pre + [blk] + post)
    requires var g := Merge(pre, blk, post);
      SameKeys(m, m', m.Keys - ({blk.start} + g.gone) - {g.unit.start}) && UnitNode(m', g.unit)
    ensures UnitNodes(m', Released(pre, blk, post))
  {
    hide *;
    MergeBounds(pre, blk, post, 1, UNITS);
    var g := Merge(pre, blk, post);
    UnitNodesConcat(m, pre + [blk], post);
    UnitNodesConcat(m, pre, [blk]);
    MergedNodes(m, pre, blk, post);
    TilesBounds(g.pre, 1, g.unit.start);
    TilesBounds(g.post, g.unit.start + g.unit.len, UNITS);
    Outside(m, m', g, blk.start);
    UnitNodesFrame(m, m', g.pre);
    UnitNodesFrame(m, m', g.post);
    OneUnitNode(m', g.unit);
    UnitNodesConcat(m', g.pre, [g.unit]);
    UnitNodesConcat(m', g.pre + [g.unit], g.post);
    MergeIs(pre, blk, post);
  }

  lemma Outside(m: Memory<MediumKey>, m': Memory<MediumKey>, g: Merged, s: int)
    requires SameKeys(m, m', m.Keys - ({s} + g.gone) - {g.unit.start}) && g.unit.start <= s < g.unit.start + g.unit.len
    requires forall p :: p in g.gone ==> g.unit.start <= p < g.unit.start + g.unit.len
    requires forall p :: p in FreeStarts(g.pre) ==> p < g.unit.start
    requires forall p :: p in FreeStarts(g.post) ==> p >= g.unit.start + g.unit.len
    ensures SameKeys(m, m', FreeStarts(g.pre)) && SameKeys(m, m', FreeStarts(g.post))
  {
    hide FreeStarts;
  }

  lemma OneUnitNode(m: Memory<MediumKey>, b: Block)
    requires UnitNode(m, b)
    ensures UnitNodes(m, [b])
  {
  }

  /** What a merge leaves of the units around it is described as before. */
  lemma MergedNodes(m: Memory<MediumKey>, pre: seq<Block>, blk: Block, post: seq<Block>)
    requires UnitNodes(m, pre) && UnitNodes(m, post)
    ensures UnitNodes(m, Merge(pre, blk, post).pre) && UnitNodes(m, Merge(pre, blk, post).post)
  {
    if pre != [] {
      assert pre == pre[..|pre| - 1] + [pre[|pre| - 1]];
      UnitNodesConcat(m, pre[..|pre| - 1], [pre[|pre| - 1]]);
    }
  }

  lemma NextNode(m: Memory<MediumKey>, pre: seq<Block>, blk: Block, post: seq<Block>)
    requires UnitNodes(m, pre + [blk] + post) && post != [] && !post[0].used
    ensures UnitNode(m, post[0])
  {
    UnitNodesConcat(m, pre + [blk], post);
  }

  lemma PrevNode(m: Memory<MediumKey>, pre: seq<Block>, blk: Block, post: seq<Block>)
    requires UnitNodes(m, pre + [blk] + post) && pre != [] && !pre[|pre| - 1].used
    ensures UnitNode(m, pre[|pre| - 1])
  {
    UnitNodesConcat(m, pre + [blk], post);
    UnitNodesConcat(m, pre, [blk]);
    assert pre == pre[..|pre| - 1] + [pre[|pre| - 1]];
    UnitNodesConcat(m, pre[..|pre| - 1], [pre[|pre| - 1]]);
  }

  lemma CarvedNodes(m: Memory<MediumKey>, m': Memory<MediumKey>, pre: seq<Block>, n: int, len: int, size: int,
      post: seq<Block>)
    requires UnitNodes(m, pre) && UnitNodes(m, post) && Tiles(pre, 1, n) && Tiles(post, n + len, UNITS)
    requires 0 < size <= len
    requires SameKeys(m, m', m.Keys - if len > size then {n + size} else {})
    requires len > size ==> UnitNode(m', Block(n + size, len - size, false))
    ensures UnitNodes(m', pre + CarvedMid(n, len, size) + post)
  {
    hide Tiles, UnitNode;
    TilesBounds(pre, 1, n);
    TilesBounds(post, n + len, UNITS);
    UnitNodesFrame(m, m', pre);
    UnitNodesFrame(m, m', post);
    var mid := CarvedMid(n, len, size);
    var last := [Block(n + size, len - size, false)];
    if len > size {
      assert last[1..] == [] && mid[1..] == last;
      assert UnitNodes(m', last);
    } else {
      assert mid[1..] == [];
    }
    assert UnitNodes(m', mid);
    UnitNodesConcat(m', pre, mid);
    UnitNodesConcat(m', pre + mid, post);
  }

  /** The node of a free unit carries its start and length. */
  lemma FreeUnitNode(m: Memory<MediumKey>, pre: seq<Block>, blk: Block, post: seq<Block>)
    requires UnitNodes(m, pre + [blk] + post)
    requires Tiles(pre, 1, blk.start) && Tiles(post, blk.start + blk.len, UNITS) && blk.len > 0
    ensures blk.start in FreeStarts(pre + [blk] + post) <==> !blk.used
    ensures !blk.used ==> UnitNode(m, blk)
    ensures UnitNodes(m, pre) && UnitNodes(m, post)
  {
    UnitNodesConcat(m, pre + [blk], post);
    UnitNodesConcat(m, pre, [blk]);
    ViewsConcat(pre + [blk], post);
    ViewsConcat(pre, [blk]);
    OneBlockViews(blk);
    TilesBounds(pre, 1, blk.start);
    TilesBounds(post, blk.start + blk.len, UNITS);
  }

  lemma {:induction false} LargestNode(m: Memory<MediumKey>, u: seq<Block>, a: int, b: int)
    requires UnitNodes(m, u) && Tiles(u, a, b)
    ensures forall p :: p in FreeStarts(u) ==> p in m && m[p].v.size <= LargestFree(u)
    ensures if FreeStarts(u) == {} then LargestFree(u) == 0
      else exists p :: p in FreeStarts(u) && m[p].v.size == LargestFree(u)
  {
    if u != [] {
      LargestNode(m, u[1..], a + u[0].len, b);
      LargestNonneg(u[1..]);
      if !u[0].used && u[0].len >= LargestFree(u[1..]) {
        assert u[0].start in FreeStarts(u) && m[u[0].start].v.size == LargestFree(u);
      } else if FreeStarts(u[1..]) != {} {
        var p :| p in FreeStarts(u[1..]) && m[p].v.size == LargestFree(u[1..]);
        assert p in FreeStarts(u);
      }
    }
  }

  ghost predicate LowestOf(m: Memory<MediumKey>, cmp: (MediumKey, MediumKey) -> int, s: seq<int>, n: int) {
    && n in m && n in s
    && forall p {:trigger p in s} :: p in s && p in m && p != n ==> cmp(m[p].v, m[n].v) >= 0
  }

  lemma LowestFrame(m: Memory<MediumKey>, m': Memory<MediumKey>, cmp: (MediumKey, MediumKey) -> int, s: seq<int>,
      n: int, other: int)
    requires m.Keys == m'.Keys && SameKeys(m, m', m.Keys - {other}) && other !in s
    ensures LowestOf(m', cmp, s, n) <==> LowestOf(m, cmp, s, n)
  {
  }

  lemma LowestWithout(m: Memory<MediumKey>, m': Memory<MediumKey>, cmp: (MediumKey, MediumKey) -> int, s: seq<int>,
      s': seq<int>, n: int, other: int)
    requires m.Keys == m'.Keys && SameKeys(m, m', m.Keys) && forall p :: p in s' <==> p in s && p != other
    ensures LowestOf(m', cmp, s', n) && other in m && cmp(m[other].v, m[n].v) >= 0 ==> LowestOf(m, cmp, s, n)
  {
  }

  lemma SizeIndexPreorder(cmp: (MediumKey, MediumKey) -> int)
    requires forall a, b :: cmp(a, b) == SizeIndexCompare(a, b)
    ensures TotalPreorder(cmp)
  {
  }

  /** init_chunk and init_chunk_medium: a chunk whose pages are one free unit. */
  method InitChunk(pos: int, pool: RBTree<ChunkKey>, cmp: (MediumKey, MediumKey) -> int, pages: Memory<MediumKey>)
    returns (c: Chunk)
    requires pos > 0 && IsPool(pool) && pos !in pool.Contents() && pos in pool.nodes && pool.nodes[pos].s == pos
    requires pool.nodes[pos].v.maxsize == (UNITS - 1) * PAGE_SIZE && KeyOf(pool.nodes[pos].v, pos)
    requires ENODE !in pages && forall p :: 1 <= p < UNITS ==> p in pages
    modifies pool
    ensures c.Valid() && fresh(c.Repr()) && c.pos == pos && c.pool == pool && c.tree.cmp == cmp
    ensures c.units == [Block(1, UNITS - 1, false)] && c.maxSize == UNITS - 1 && c.MaxTrue()
    ensures (forall a, b :: cmp(a, b) == SizeIndexCompare(a, b)) ==> c.tree.Ordered()
    ensures forall i :: i in pool.Contents() <==> i in old(pool.Contents()) || i == pos
    ensures OnlyLinks(old(pool.nodes), pool.nodes, Ids(old(pool.tree)) + {pos})
  {
    hide Bits, IsPool, UnitNodes, RBTree.Valid, RBTree.Ordered;
    var tree := NewFreeTree(cmp, pages);
    var bits1 := NewBitmap();
    var bits2 := NewBitmap();
    var bits3 := NewBitmap();
    c := new Chunk(pos, pool, tree, bits1, bits2, bits3);
    c.Start();
  }

  /** The tree of a new chunk: its one free unit. */
  method NewFreeTree(cmp: (MediumKey, MediumKey) -> int, pages: Memory<MediumKey>) returns (t: RBTree<MediumKey>)
    requires ENODE !in pages && 1 in pages
    ensures fresh(t) && t.Valid() && t.Contents() == [1] && t.cmp == cmp && t.nodes.Keys == pages.Keys
    ensures UnitNodes(t.nodes, [Block(1, UNITS - 1, false)])
    ensures (forall a, b :: cmp(a, b) == SizeIndexCompare(a, b)) ==> t.Ordered()
  {
    t := new RBTree(cmp, pages[1 := pages[1].(s := 1, v := MediumKey(UNITS - 1, 1))]);
    ghost var k, rounds := t.Insert(1);
    assert t.Contents() == [1];
  }

  method NewBitmap() returns (b: array<bv64>)
    ensures fresh(b) && b.Length == 4 && Bits(b[..]) == {}
  {
    b := new bv64[4](_ => 0);
    NoBits(b[..]);
  }
}
