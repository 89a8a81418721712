/** The mergeable heap of src/shm_tree.c and src/shm_tree.h: runs ordered by position, linked
    through `left`, `right` and a parent link `root`. */
module RunHeap {
  import opened Basics

  datatype HeapNode = HeapNode(rank: nat, root: int, left: int, right: int)

  type HeapMemory = map<int, HeapNode>

  // ----- shm_tree_merge on memory, assignment by assignment -----

  datatype MergeResult = Undefined | Merged(m: HeapMemory, r: int)

  /** The end of one call: `r` is what merging the right part gave, `a` the node it goes under. */
  function Hook(m: HeapMemory, a: int, r: int): MergeResult {
    if a !in m || r !in m then Undefined
    else
      var m1 := m[r := m[r].(root := a)];
      var m2 := m1[a := m1[a].(right := r)];
      if m2[a].left == SHM_NULL then
        Merged(m2[a := m2[a].(left := m2[a].right, right := SHM_NULL)], a)
      else if m2[a].left !in m2 then Undefined
      else
        var l := m2[a].left;
        if m2[l].rank < m2[r].rank then
          Merged(m2[a := m2[a].(left := m2[a].right, right := m2[a].left, rank := m2[l].rank + 1)], a)
        else
          Merged(m2[a := m2[a].(rank := m2[r].rank + 1)], a)
  }

  /** The merge of the heaps at `a` and `b`. Undefined if a link leads out of memory or the
      recursion goes deeper than `fuel`. */
  function MergeRaw(m: HeapMemory, a: int, b: int, fuel: nat): MergeResult
    decreases fuel
  {
    if a == SHM_NULL then Merged(m, b)
    else if b == SHM_NULL then Merged(m, a)
    else if a !in m || b !in m || fuel == 0 then Undefined
    else
      var (t1, t2) := if a > b then (b, a) else (a, b);
      match MergeRaw(m, m[t1].right, t2, fuel - 1)
      case Undefined => Undefined
      case Merged(m', r) => Hook(m', t1, r)
  }

  // ----- heaps as trees -----

  datatype Heap = Empty | Tree(pos: int, rank: nat, left: Heap, right: Heap)

  function RootOf(t: Heap): int { if t.Empty? then SHM_NULL else t.pos }

  ghost function Nodes(t: Heap): set<int> {
    match t
    case Empty => {}
    case Tree(p, _, l, r) => {p} + Nodes(l) + Nodes(r)
  }

  ghost predicate Distinct(t: Heap) {
    match t
    case Empty => true
    case Tree(p, _, l, r) => p !in Nodes(l) && p !in Nodes(r) && Nodes(l) !! Nodes(r) && Distinct(l) && Distinct(r)
  }

  /** Parent before child. */
  ghost predicate Ordered(t: Heap) {
    match t
    case Empty => true
    case Tree(p, _, l, r) => (l.Tree? ==> p < l.pos) && (r.Tree? ==> p < r.pos) && Ordered(l) && Ordered(r)
  }

  /** Rank of a subtree, -1 for a missing one: one less than the length of its right spine. */
  function RankOf(t: Heap): int { if t.Empty? then -1 else t.rank }

  /** Stored ranks are right and never larger on the right. */
  ghost predicate Leftist(t: Heap) {
    match t
    case Empty => true
    case Tree(_, rank, l, r) => rank == RankOf(r) + 1 && RankOf(l) >= RankOf(r) && Leftist(l) && Leftist(r)
  }

  /** Memory says what the tree says; the root's own parent link is not looked at. */
  ghost predicate Holds(m: HeapMemory, t: Heap) {
    t.Tree? ==>
      && t.pos > 0 && t.pos in m
      && m[t.pos].rank == t.rank && m[t.pos].left == RootOf(t.left) && m[t.pos].right == RootOf(t.right)
      && Holds(m, t.left) && Holds(m, t.right)
      && (t.left.Tree? ==> m[t.left.pos].root == t.pos) && (t.right.Tree? ==> m[t.right.pos].root == t.pos)
  }

  // ----- the merge of trees -----

  function Put(t: Heap, r: Heap): Heap
    requires t.Tree? && r.Tree?
  {
    if t.left.Empty? then Tree(t.pos, t.rank, r, Empty)
    else if t.left.rank < r.rank then Tree(t.pos, t.left.rank + 1, r, t.left)
    else Tree(t.pos, r.rank + 1, t.left, r)
  }

  function Weight(t: Heap): nat {
    if t.Empty? then 0 else 1 + Weight(t.left) + Weight(t.right)
  }

  /** Length of the right spine. */
  function Spine(t: Heap): nat {
    if t.Empty? then 0 else 1 + Spine(t.right)
  }

  function Merge(s: Heap, t: Heap): (r: Heap)
    ensures s.Tree? || t.Tree? ==> r.Tree?
    ensures s.Empty? ==> r == t
    ensures t.Empty? ==> r == s
    decreases Weight(s) + Weight(t)
  {
    if s.Empty? then t
    else if t.Empty? then s
    else if s.pos > t.pos then Put(t, Merge(t.right, s))
    else Put(s, Merge(s.right, t))
  }

  // ----- frames -----

  lemma {:induction false} HoldsFrame(m: HeapMemory, m': HeapMemory, t: Heap)
    requires Holds(m, t) && forall i :: i in Nodes(t) && i in m ==> i in m' && m'[i] == m[i]
    ensures Holds(m', t)
  {
    if t.Tree? {
      HoldsFrame(m, m', t.left);
      HoldsFrame(m, m', t.right);
    }
  }

  /** Only the root's parent link differs. */
  lemma HoldsReroot(m: HeapMemory, m': HeapMemory, t: Heap)
    requires Holds(m, t) && Distinct(t) && t.Tree?
    requires t.pos in m' && (exists p :: m'[t.pos] == m[t.pos].(root := p))
    requires forall i :: i in Nodes(t) && i != t.pos && i in m ==> i in m' && m'[i] == m[i]
    ensures Holds(m', t)
  {
    HoldsFrame(m, m', t.left);
    HoldsFrame(m, m', t.right);
  }

  lemma {:induction false} HoldsNodes(m: HeapMemory, t: Heap)
    requires Holds(m, t)
    ensures forall i :: i in Nodes(t) ==> i > 0 && i in m
  {
    if t.Tree? {
      HoldsNodes(m, t.left);
      HoldsNodes(m, t.right);
    }
  }

  ghost predicate Elsewhere(m: HeapMemory, m': HeapMemory, s: set<int>) {
    m'.Keys == m.Keys && forall i :: i in m && i !in s ==> m'[i] == m[i]
  }

  /** Hooking a heap under a node whose right part it replaces. */
  lemma HookHolds(m: HeapMemory, t: Heap, r: Heap)
    requires t.Tree? && r.Tree? && Holds(m, t.left) && Holds(m, r)
    requires t.pos > 0 && t.pos in m && m[t.pos].rank == t.rank && m[t.pos].left == RootOf(t.left)
    requires t.left.Tree? ==> m[t.left.pos].root == t.pos
    requires Distinct(t.left) && Distinct(r) && Nodes(t.left) !! Nodes(r) && t.pos !in Nodes(t.left)
    requires t.pos !in Nodes(r)
    ensures var h := Hook(m, t.pos, r.pos);
      && h.Merged? && h.r == t.pos && Holds(h.m, Put(t, r)) && Distinct(Put(t, r))
      && Nodes(Put(t, r)) == {t.pos} + Nodes(t.left) + Nodes(r)
      && Elsewhere(m, h.m, {t.pos} + Nodes(t.left) + Nodes(r)) && h.m[t.pos].root == m[t.pos].root
  {
    HoldsNodes(m, t.left);
    HoldsNodes(m, r);
    var h := Hook(m, t.pos, r.pos);
    assert h.m[r.pos] == m[r.pos].(root := t.pos);
    HoldsFrame(m, h.m, t.left);
    HoldsReroot(m, h.m, r);
  }

  /** The merge of two separate heaps in memory is the merge of the trees; it ends, and no deeper
      than the two right spines together are long. */
  lemma {:induction false} MergeHolds(m: HeapMemory, s: Heap, t: Heap, fuel: nat)
    requires Holds(m, s) && Holds(m, t) && Distinct(s) && Distinct(t) && Nodes(s) !! Nodes(t)
    requires fuel >= Spine(s) + Spine(t)
    ensures var h := MergeRaw(m, RootOf(s), RootOf(t), fuel);
      && h.Merged? && h.r == RootOf(Merge(s, t)) && Holds(h.m, Merge(s, t)) && Distinct(Merge(s, t))
      && Nodes(Merge(s, t)) == Nodes(s) + Nodes(t)
      && Elsewhere(m, h.m, Nodes(s) + Nodes(t))
      && (Merge(s, t).Tree? ==> h.m[h.r].root == m[h.r].root)
    decreases Weight(s) + Weight(t)
  {
    if s.Tree? && t.Tree? {
      if s.pos > t.pos {
        MergeHoldsFirst(m, t, s, fuel);
      } else {
        MergeHoldsFirst(m, s, t, fuel);
      }
    }
  }

  lemma {:induction false} MergeHoldsFirst(m: HeapMemory, s: Heap, t: Heap, fuel: nat)
    requires Holds(m, s) && Holds(m, t) && Distinct(s) && Distinct(t) && Nodes(s) !! Nodes(t) && s.Tree? && t.Tree?
    requires fuel >= Spine(s) + Spine(t) && s.pos < t.pos
    ensures var h := MergeRaw(m, s.pos, t.pos, fuel);
      && h == MergeRaw(m, t.pos, s.pos, fuel)
      && h.Merged? && h.r == s.pos && Holds(h.m, Put(s, Merge(s.right, t))) && Distinct(Put(s, Merge(s.right, t)))
      && Nodes(Put(s, Merge(s.right, t))) == Nodes(s) + Nodes(t)
      && Elsewhere(m, h.m, Nodes(s) + Nodes(t)) && h.m[h.r].root == m[h.r].root
    decreases Weight(s) + Weight(t), 0
  {
    MergeHolds(m, s.right, t, fuel - 1);
    var h := MergeRaw(m, m[s.pos].right, t.pos, fuel - 1);
    HoldsFrame(m, h.m, s.left);
    HookHolds(h.m, s, Merge(s.right, t));
  }

  // ----- order, shape and cost -----

  ghost predicate Above(p: int, t: Heap) { t.Tree? ==> p < t.pos }

  lemma {:induction false} MergeOrdered(s: Heap, t: Heap)
    requires Ordered(s) && Ordered(t) && Nodes(s) !! Nodes(t)
    ensures Ordered(Merge(s, t))
    ensures forall p :: Above(p, s) && Above(p, t) ==> Above(p, Merge(s, t))
    decreases Weight(s) + Weight(t)
  {
    if s.Tree? && t.Tree? {
      assert s.pos in Nodes(s) && t.pos in Nodes(t);
      if s.pos > t.pos {
        MergeOrdered(t.right, s);
        assert Above(t.pos, Merge(t.right, s));
      } else {
        MergeOrdered(s.right, t);
        assert Above(s.pos, Merge(s.right, t));
      }
    }
  }

  lemma {:induction false} MergeLeftist(s: Heap, t: Heap)
    requires Leftist(s) && Leftist(t)
    ensures Leftist(Merge(s, t)) && RankOf(Merge(s, t)) >= -1
    decreases Weight(s) + Weight(t)
  {
    LeftistRank(s);
    LeftistRank(t);
    if s.Tree? && t.Tree? {
      if s.pos > t.pos {
        MergeLeftist(t.right, s);
        LeftistRank(t.left);
        LeftistRank(t.right);
        LeftistRank(Merge(t.right, s));
      } else {
        MergeLeftist(s.right, t);
        LeftistRank(s.left);
        LeftistRank(s.right);
        LeftistRank(Merge(s.right, t));
      }
    }
  }

  lemma {:induction false} LeftistRank(t: Heap)
    requires Leftist(t)
    ensures Spine(t) == RankOf(t) + 1 && RankOf(t) >= -1 && (t.Tree? ==> RankOf(t) >= 0)
  {
    if t.Tree? { LeftistRank(t.right); }
  }

  /** In a leftist heap of n nodes the right spine is at most log2(n + 1) long. */
  lemma {:induction false} SpineBound(t: Heap)
    requires Leftist(t)
    ensures Pow2(Spine(t)) <= Weight(t) + 1
  {
    if t.Tree? {
      SpineBound(t.left);
      SpineBound(t.right);
      LeftistRank(t.left);
      LeftistRank(t.right);
      Pow2Sum(Spine(t.right), Spine(t.left) - Spine(t.right));
    }
  }

  lemma {:induction false} WeightNodes(t: Heap)
    requires Distinct(t)
    ensures Weight(t) == |Nodes(t)|
  {
    if t.Tree? {
      WeightNodes(t.left);
      WeightNodes(t.right);
      assert Nodes(t) == {t.pos} + (Nodes(t.left) + Nodes(t.right));
    }
  }

  // ----- removal of any node -----

  /** shm_tree_remove on trees: the node's two parts, merged, take its place; nothing above changes. */
  function Remove(t: Heap, x: int): Heap {
    if t.Empty? then Empty
    else if t.pos == x then Merge(t.left, t.right)
    else t.(left := Remove(t.left, x), right := Remove(t.right, x))
  }

  /** The subtree at `x`. */
  function Find(t: Heap, x: int): Heap {
    if t.Empty? || t.pos == x then t
    else if Find(t.left, x).Tree? then Find(t.left, x)
    else Find(t.right, x)
  }

  lemma {:induction false} FindNode(t: Heap, x: int)
    requires Distinct(t)
    ensures x in Nodes(t) <==> Find(t, x).Tree?
    ensures x in Nodes(t) ==> Find(t, x).pos == x && Nodes(Find(t, x)) <= Nodes(t) && Distinct(Find(t, x))
    ensures Ordered(t) ==> Ordered(Find(t, x))
  {
    if t.Tree? && t.pos != x {
      FindNode(t.left, x);
      FindNode(t.right, x);
    }
  }

  lemma {:induction false} MergeNodes(s: Heap, t: Heap)
    ensures Nodes(Merge(s, t)) == Nodes(s) + Nodes(t)
    ensures Distinct(s) && Distinct(t) && Nodes(s) !! Nodes(t) ==> Distinct(Merge(s, t))
    decreases Weight(s) + Weight(t)
  {
    if s.Tree? && t.Tree? {
      if s.pos > t.pos { MergeNodes(t.right, s); } else { MergeNodes(s.right, t); }
    }
  }

  /** Exactly one node goes, and the order and separation of the rest are kept; ranks and the
      leftist shape above it need not be. */
  lemma {:induction false} RemoveNodes(t: Heap, x: int)
    requires Distinct(t)
    ensures Nodes(Remove(t, x)) == Nodes(t) - {x} && Distinct(Remove(t, x))
    ensures Ordered(t) ==> Ordered(Remove(t, x)) && forall p :: Above(p, t) ==> Above(p, Remove(t, x))
  {
    if t.Tree? {
      if t.pos == x {
        MergeNodes(t.left, t.right);
        if Ordered(t) {
          MergeOrdered(t.left, t.right);
          forall p | Above(p, t) ensures Above(p, Merge(t.left, t.right)) {
            assert Above(p, t.left) && Above(p, t.right);
          }
        }
      } else {
        RemoveNodes(t.left, x);
        RemoveNodes(t.right, x);
        if Ordered(t) { assert Above(t.pos, t.left) && Above(t.pos, t.right); }
      }
    }
  }

  /** A removal can leave a heap that is not leftist: its stored ranks are no longer right. */
  lemma RemoveNotLeftist()
    ensures var t := Tree(1, 1, Tree(2, 0, Empty, Empty), Tree(3, 0, Empty, Empty));
      Leftist(t) && Ordered(t) && 3 in Nodes(t) && !Leftist(Remove(t, 3))
  {
    var l, r := Tree(2, 0, Empty, Empty), Tree(3, 0, Empty, Empty);
    var t := Tree(1, 1, l, r);
    assert 3 in Nodes(r);
    assert Remove(Empty, 3) == Empty && Remove(l, 3) == l && Remove(r, 3) == Empty;
    assert Remove(t, 3) == Tree(1, 1, l, Empty);
    assert RankOf(Empty) == -1;
  }

  // ----- removal in memory -----

  /** The node above `x`, 0 if `x` is the root or absent. */
  function ParentOf(t: Heap, x: int): int {
    if t.Empty? then 0
    else if RootOf(t.left) == x || RootOf(t.right) == x then t.pos
    else if ParentOf(t.left, x) != 0 then ParentOf(t.left, x)
    else ParentOf(t.right, x)
  }

  /** Memory after the subtree at `x` has been replaced by `r` below its parent. */
  ghost predicate Replaced(m: HeapMemory, m': HeapMemory, p: int, x: int, r: Heap) {
    && Holds(m', r) && p in m && p in m' && (r.Tree? ==> m'[r.pos].root == p)
    && m'[p] == if m[p].left == x then m[p].(left := RootOf(r)) else m[p].(right := RootOf(r))
  }

  /** Where a node other than the root is: the four cases. */
  lemma Where(t: Heap, x: int)
    requires t.Tree? && Distinct(t) && x in Nodes(t) && x != t.pos && x != 0
    ensures RootOf(t.left) == x ==>
      Find(t, x) == t.left && ParentOf(t, x) == t.pos && RootOf(t.right) != x && Remove(t.right, x) == t.right
    ensures RootOf(t.right) == x ==>
      Find(t, x) == t.right && ParentOf(t, x) == t.pos && RootOf(t.left) != x && Remove(t.left, x) == t.left
    ensures RootOf(t.left) != x && x in Nodes(t.left) ==>
      Find(t, x) == Find(t.left, x) && Remove(t.right, x) == t.right && (ParentOf(t.left, x) != 0 ==>
        ParentOf(t, x) == ParentOf(t.left, x))
    ensures RootOf(t.left) != x && RootOf(t.right) != x && x !in Nodes(t.left) ==>
      x in Nodes(t.right) && Find(t, x) == Find(t.right, x) && Remove(t.left, x) == t.left
        && ParentOf(t, x) == ParentOf(t.right, x)
    ensures RootOf(t.left) != x && x in Nodes(t.left) ==> RootOf(t.right) != x
  {
    FindNode(t.left, x);
    FindNode(t.right, x);
    RemoveAbsent(t.left, x);
    RemoveAbsent(t.right, x);
    ParentAbsent(t.left, x);
    ParentAbsent(t.right, x);
    if t.left.Tree? { assert t.left.pos in Nodes(t.left); }
    if t.right.Tree? { assert t.right.pos in Nodes(t.right); }
  }

  /** The parent is in the heap, outside the subtree, and its link leads to the subtree. */
  lemma {:induction false} ParentKnown(m: HeapMemory, t: Heap, x: int)
    requires Holds(m, t) && Distinct(t) && t.Tree? && x in Nodes(t) && x != t.pos && x != 0
    ensures var p := ParentOf(t, x);
      p > 0 && p in m && p in Nodes(t) && p !in Nodes(Find(t, x)) && p != x && x in m && m[x].root == p
      && (m[p].left == x || m[p].right == x)
    ensures Find(t, x).Tree? && Find(t, x).pos == x && Holds(m, Find(t, x)) && Distinct(Find(t, x))
    ensures Nodes(Find(t, x)) <= Nodes(t)
  {
    Where(t, x);
    if RootOf(t.left) == x || RootOf(t.right) == x {
    } else if x in Nodes(t.left) {
      ParentKnown(m, t.left, x);
    } else {
      ParentKnown(m, t.right, x);
    }
  }

  lemma {:induction false} ReplacedHolds(m: HeapMemory, m': HeapMemory, t: Heap, x: int)
    requires Holds(m, t) && Distinct(t) && t.Tree? && x in Nodes(t) && t.pos != x && x != 0
    requires var u := Find(t, x); u.Tree? && Replaced(m, m', ParentOf(t, x), x, Merge(u.left, u.right))
    requires forall i ::
      i in Nodes(t) && i in m && i !in Nodes(Find(t, x)) && i != ParentOf(t, x) ==> i in m' && m'[i] == m[i]
    ensures Holds(m', Remove(t, x)) && Remove(t, x).Tree? && Remove(t, x).pos == t.pos
    ensures m'[t.pos].root == m[t.pos].root
  {
    Where(t, x);
    ParentKnown(m, t, x);
    if RootOf(t.left) == x {
      HoldsFrame(m, m', t.right);
    } else if RootOf(t.right) == x {
      HoldsFrame(m, m', t.left);
    } else if x in Nodes(t.left) {
      ParentKnown(m, t.left, x);
      ReplacedHolds(m, m', t.left, x);
      HoldsFrame(m, m', t.right);
    } else {
      ParentKnown(m, t.right, x);
      ReplacedHolds(m, m', t.right, x);
      HoldsFrame(m, m', t.left);
    }
  }

  lemma {:induction false} RemoveAbsent(t: Heap, x: int)
    ensures x !in Nodes(t) ==> Remove(t, x) == t
  {
    if t.Tree? { RemoveAbsent(t.left, x); RemoveAbsent(t.right, x); }
  }

  lemma {:induction false} ParentAbsent(t: Heap, x: int)
    requires x != 0
    ensures x !in Nodes(t) ==> ParentOf(t, x) == 0
    ensures ParentOf(t, x) == 0 || ParentOf(t, x) in Nodes(t)
  {
    if t.Tree? {
      ParentAbsent(t.left, x);
      ParentAbsent(t.right, x);
      if t.left.Tree? { assert t.left.pos in Nodes(t.left); }
      if t.right.Tree? { assert t.right.pos in Nodes(t.right); }
    }
  }

  lemma SingleHeap(m: HeapMemory, node: int) returns (t: Heap)
    requires node > 0 && node in m && m[node].left == m[node].right == SHM_NULL
    ensures t.Tree? && t.pos == node && t.rank == m[node].rank && Holds(m, t) && Distinct(t) && Ordered(t)
    ensures Nodes(t) == {node}
    ensures t.rank == 0 ==> Leftist(t)
  {
    t := Tree(node, m[node].rank, Empty, Empty);
  }
}
