/** The index of chunks of src/shm_chunk.c: a red-black tree of chunk positions, keyed by the
    largest request each chunk can serve. */
module ChunkPool {
  import opened Basics
  import opened RedBlackShape
  import opened RedBlackMemory
  import opened RedBlackTree
  import opened RedBlackSearch
  import opened KeyOrder

  type uint32 = x: int | 0 <= x < 0x1_0000_0000
  /** Indexes are below 128 and sizes below 2^20, so every field stays in this range. */
  type uint31 = x: int | 0 <= x < 0x8000_0000

  datatype ChunkKey = ChunkKey(index: uint31, maxsize: uint31)

  /** The key of the chunk at `pos` names its arena: pos2index. */
  ghost predicate KeyOf(k: ChunkKey, pos: int) {
    k.index == pos / ARENA_SPAN
  }

  /** An unsigned 32-bit difference read as a signed int. */
  function SignedDifference(a: uint32, b: uint32): int {
    var d := (a - b) % 0x1_0000_0000;
    if d < 0x8000_0000 then d else d - 0x1_0000_0000
  }

  /** chunk_tree_compare */
  function ChunkTreeCompare(a: ChunkKey, b: ChunkKey): int {
    if a.maxsize == b.maxsize then SignedDifference(a.index, b.index) else SignedDifference(a.maxsize, b.maxsize)
  }

  /** The wrapped difference has the sign of the true one exactly while that stays in range. */
  lemma DifferenceSign(a: uint32, b: uint32)
    ensures -0x8000_0000 <= a - b < 0x8000_0000 <==> SignedDifference(a, b) == a - b
    ensures a - b < -0x8000_0000 ==> SignedDifference(a, b) > 0
    ensures a - b >= 0x8000_0000 ==> SignedDifference(a, b) < 0
  {
  }

  lemma ChunkCompareExact(a: ChunkKey, b: ChunkKey)
    ensures ChunkTreeCompare(a, b) == if a.maxsize == b.maxsize then a.index - b.index else a.maxsize - b.maxsize
  {
    DifferenceSign(a.index, b.index);
    DifferenceSign(a.maxsize, b.maxsize);
  }

  ghost predicate IsChunkOrder(cmp: (ChunkKey, ChunkKey) -> int) {
    forall a, b :: cmp(a, b) == ChunkTreeCompare(a, b)
  }

  lemma ChunkOrder(cmp: (ChunkKey, ChunkKey) -> int)
    requires IsChunkOrder(cmp)
    ensures TotalPreorder(cmp)
  {
    hide SignedDifference;
    forall a, b ensures cmp(a, b) == if a.maxsize == b.maxsize then a.index - b.index else a.maxsize - b.maxsize {
      ChunkCompareExact(a, b);
    }
  }

  ghost predicate IsPool(tree: RBTree<ChunkKey>)
    reads tree
  {
    tree.Valid() && IsChunkOrder(tree.cmp) && tree.Ordered()
  }

  /** Members, names and keys of a pool are what they were, except that `chunk` may have
      another key. */
  ghost predicate SamePool(s: seq<int>, m: Memory<ChunkKey>, s': seq<int>, m': Memory<ChunkKey>, chunk: int) {
    && m'.Keys == m.Keys
    && (forall i :: i in s' <==> i in s)
    && (forall i :: i in m ==> m'[i].s == m[i].s && m'[i].v.index == m[i].v.index)
    && (forall i :: i in m && i != chunk ==> m'[i].v == m[i].v)
  }

  lemma RemovedMembers(s: seq<int>, s': seq<int>, n: int, k: nat)
    requires RemovedAt(s, s', n, k) && NoDuplicates(s)
    ensures forall i :: i in s' <==> i in s && i != n
    ensures |s'| == |s| - 1
  {
    forall i | i in s && i != n ensures i in s' {
      var j :| 0 <= j < |s| && s[j] == i;
      assert if j < k then s'[j] == i else s'[j - 1] == i;
    }
    forall i | i in s' ensures i in s && i != n {
      var j :| 0 <= j < |s'| && s'[j] == i;
      assert if j < k then s[j] == i else s[j + 1] == i;
    }
  }

  lemma InsertedMembers<K(!new)>(m: Memory<K>, cmp: (K, K) -> int, s: seq<int>, s': seq<int>, n: int, k: nat)
    requires InsertedAt(m, cmp, s, s', n, k)
    ensures forall i :: i in s' <==> i in s || i == n
    ensures |s'| == |s| + 1
  {
    assert s == s[..k] + s[k..];
  }

  /** update_chunk_pool */
  method UpdateChunkPool(tree: RBTree<ChunkKey>, chunk: int, newMax: uint31)
    requires IsPool(tree) && chunk in tree.Contents()
    modifies tree
    ensures IsPool(tree)
    ensures SamePool(old(tree.Contents()), old(tree.nodes), tree.Contents(), tree.nodes, chunk)
    ensures chunk in tree.nodes && tree.nodes[chunk].v.maxsize == newMax
  {
    ChunkOrder(tree.cmp);
    ghost var s0, m0 := tree.Contents(), tree.nodes;
    tree.MemberKnown(chunk);
    ghost var k, rounds := tree.Delete(chunk);
    RemovedMembers(s0, tree.Contents(), chunk, k);
    RemoveKeepsOrder(m0, tree.nodes, tree.cmp, s0, tree.Contents(), chunk, k);
    ghost var s1 := tree.Contents();
    ghost var m1 := tree.nodes;
    tree.Write(chunk, tree.nodes[chunk].(v := tree.nodes[chunk].v.(maxsize := newMax)));
    SortedKeep(m1, tree.nodes, tree.cmp, s1);
    ghost var m2 := tree.nodes;
    k, rounds := tree.Insert(chunk);
    InsertedMembers(m2, tree.cmp, s1, tree.Contents(), chunk, k);
    InsertKeepsOrder(m2, tree.nodes, tree.cmp, s1, tree.Contents(), chunk, k);
  }

  /** The chunk the search of get_avaliable_chunk comes to, null for none. */
  ghost function Available(tree: RBTree<ChunkKey>, size: uint31): int
    reads tree
  {
    Lower(tree.nodes, tree.cmp, tree.tree, ChunkKey(0, size))
  }

  /** get_avaliable_chunk: null exactly if no pooled chunk can serve `size`. */
  method GetAvailableChunk(tree: RBTree<ChunkKey>, size: uint31) returns (chunk: int)
    requires IsPool(tree)
    ensures chunk != RB_NULL ==> chunk in tree.Contents() && chunk in tree.nodes && tree.nodes[chunk].v.maxsize >= size
    ensures chunk == RB_NULL ==> forall c :: c in tree.Contents() && c in tree.nodes ==> tree.nodes[c].v.maxsize < size
    ensures chunk == Available(tree, size)
  {
    ChunkOrder(tree.cmp);
    var v := ChunkKey(0, size);
    ghost var rounds;
    chunk, rounds := tree.FindLower(v);
    tree.AllKnown();
    LowerComplete(tree.nodes, tree.cmp, tree.tree, v);
    LowerFits(tree.nodes, tree.cmp, tree.tree, v);
    forall c | c in tree.nodes ensures Fits(tree.nodes, tree.cmp, c, v) <==> tree.nodes[c].v.maxsize >= size {
      ChunkCompareExact(tree.nodes[c].v, v);
    }
  }

  /** The insertion into the pool at the end of init_chunk. */
  method AddToPool(pool: RBTree<ChunkKey>, pos: int)
    requires IsPool(pool) && pos > 0 && pos !in pool.Contents() && pos in pool.nodes && pool.nodes[pos].s == pos
    modifies pool
    ensures IsPool(pool)
    ensures forall i :: i in pool.Contents() <==> i in old(pool.Contents()) || i == pos
    ensures OnlyLinks(old(pool.nodes), pool.nodes, Ids(old(pool.tree)) + {pos})
  {
    ChunkOrder(pool.cmp);
    ghost var m, s := pool.nodes, pool.Contents();
    ghost var k, rounds := pool.Insert(pos);
    InsertedMembers(m, pool.cmp, s, pool.Contents(), pos, k);
    InsertKeepsOrder(m, pool.nodes, pool.cmp, s, pool.Contents(), pos, k);
  }

  /** The removal from the pool in delete_chunk. */
  method DeleteFromPool(pool: RBTree<ChunkKey>, pos: int)
    requires IsPool(pool) && pos in pool.Contents()
    modifies pool
    ensures IsPool(pool)
    ensures forall i :: i in pool.Contents() <==> i in old(pool.Contents()) && i != pos
    ensures OnlyLinks(old(pool.nodes), pool.nodes, Ids(old(pool.tree)))
  {
    ChunkOrder(pool.cmp);
    ghost var m, s := pool.nodes, pool.Contents();
    pool.MemberKnown(pos);
    ghost var k, rounds := pool.Delete(pos);
    RemovedMembers(s, pool.Contents(), pos, k);
    RemoveKeepsOrder(m, pool.nodes, pool.cmp, s, pool.Contents(), pos, k);
  }

  /** Header of a new chunk at `pos`, as init_chunk fills it in. */
  method WriteHeader(pool: RBTree<ChunkKey>, pos: int, key: ChunkKey)
    requires IsPool(pool) && pos > 0 && pos !in pool.Contents()
    modifies pool
    ensures IsPool(pool) && pool.Contents() == old(pool.Contents()) && pool.tree == old(pool.tree)
    ensures pool.nodes == old(pool.nodes)[pos := NodeRec(pos, RB_NULL, RB_NULL, RB_NULL, key, Black)]
  {
    ghost var m, s := pool.nodes, pool.Contents();
    pool.Write(pos, NodeRec(pos, RB_NULL, RB_NULL, RB_NULL, key, Black));
    SortedKeep(m, pool.nodes, pool.cmp, s);
  }

  /** The index part of init_chunk: header of a new chunk at `pos`, then the insertion. */
  method EnterPool(pool: RBTree<ChunkKey>, pos: int, key: ChunkKey)
    requires IsPool(pool) && pos > 0 && pos !in pool.Contents()
    modifies pool
    ensures IsPool(pool)
    ensures forall i :: i in pool.Contents() <==> i in old(pool.Contents()) || i == pos
    ensures pool.nodes.Keys == old(pool.nodes.Keys) + {pos} && pool.nodes[pos].v == key
    ensures forall i :: i in old(pool.nodes) && i != pos ==>
      pool.nodes[i].s == old(pool.nodes)[i].s && pool.nodes[i].v == old(pool.nodes)[i].v
  {
    hide IsPool;
    WriteHeader(pool, pos, key);
    AddToPool(pool, pos);
  }
}
