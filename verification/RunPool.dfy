/** struct shm_pool: the heap of the non-full runs of one size class, with their number. */
module RunPool {
  import opened Basics
  import opened RunHeap
  import opened RunRepush

  /** Links a node has before it first enters a heap: none. */
  predicate Detached(n: HeapNode) {
    n.root == SHM_NULL && n.left == SHM_NULL && n.right == SHM_NULL
  }

  lemma RootIsNode(t: Heap)
    ensures t.Tree? ==> t.pos in Nodes(t)
  {
  }

  lemma SizeOfHeap(t: Heap)
    ensures |Nodes(t)| > 0 ==> t.Tree?
  {
  }

  lemma MergeRoot(s: Heap, t: Heap)
    ensures RootOf(Merge(s, t)) == RootOf(s) || RootOf(Merge(s, t)) == RootOf(t)
  {
  }

  lemma NodesParts(t: Heap)
    requires t.Tree? && RunHeap.Distinct(t)
    ensures t.pos in Nodes(t) && Nodes(t) - {t.pos} == Nodes(t.left) + Nodes(t.right)
    ensures Nodes(t.left) !! Nodes(t.right) && t.pos !in Nodes(t.left) && t.pos !in Nodes(t.right)
    ensures |Nodes(t)| == 1 + |Nodes(t.left)| + |Nodes(t.right)|
  {
    WeightNodes(t);
    WeightNodes(t.left);
    WeightNodes(t.right);
  }

  lemma HeapChildren(m: HeapMemory, t: Heap)
    requires t.Tree? && Holds(m, t) && RunHeap.Distinct(t)
    ensures t.pos in m && m[t.pos].left == RootOf(t.left) && m[t.pos].right == RootOf(t.right)
    ensures Holds(m, t.left) && Holds(m, t.right) && RunHeap.Distinct(t.left) && RunHeap.Distinct(t.right)
    ensures Nodes(t.left) !! Nodes(t.right)
    ensures t.pos !in Nodes(t.left) && t.pos !in Nodes(t.right) && Nodes(t.left) + Nodes(t.right) <= Nodes(t)
  {
  }

  lemma HeapParts(m: HeapMemory, t: Heap)
    requires t.Tree? && Holds(m, t) && RunHeap.Distinct(t) && Ordered(t)
    ensures t.pos > 0 && t.pos in m && m[t.pos].left == RootOf(t.left) && m[t.pos].right == RootOf(t.right)
    ensures Holds(m, t.left) && Holds(m, t.right) && RunHeap.Distinct(t.left) && RunHeap.Distinct(t.right)
    ensures Ordered(t.left) && Ordered(t.right)
    ensures Leftist(t) ==> Leftist(t.left) && Leftist(t.right)
    ensures RootOf(t.left) == SHM_NULL <==> Nodes(t.left) == {}
    ensures RootOf(t.right) == SHM_NULL <==> Nodes(t.right) == {}
  {
    RootIsNode(t.left);
    RootIsNode(t.right);
  }

  lemma {:induction false} RootLeast(t: Heap)
    requires Ordered(t)
    ensures forall n :: n in Nodes(t) ==> RootOf(t) <= n
  {
    if t.Tree? {
      RootLeast(t.left);
      RootLeast(t.right);
    }
  }

  class Pool {
    /** Whether a node taken out loses its links. In the code it does not: false. */
    const clears: bool
    var root: int
    var size: nat
    var mem: HeapMemory
    ghost var heap: Heap

    ghost predicate Valid()
      reads this
    {
      && root == RootOf(heap)
      && Holds(mem, heap) && Distinct(heap) && Ordered(heap)
      && (heap.Tree? ==> mem[heap.pos].root == SHM_NULL)
      && size == |Nodes(heap)|
    }

    ghost function Members(): set<int>
      reads this
    {
      Nodes(heap)
    }

    constructor (mem: HeapMemory, clears: bool)
      ensures Valid() && Members() == {} && this.mem == mem && this.clears == clears
    {
      this.mem, this.clears := mem, clears;
      root, size, heap := SHM_NULL, 0, Empty;
    }

    /** The node of a run whose page has just been cleared. */
    method Clear(node: int)
      requires Valid() && node > 0 && node !in Members()
      modifies this`mem
      ensures Valid() && Members() == old(Members())
      ensures mem == old(mem)[node := HeapNode(0, SHM_NULL, SHM_NULL, SHM_NULL)] && Detached(mem[node])
    {
      mem := mem[node := HeapNode(0, SHM_NULL, SHM_NULL, SHM_NULL)];
      RootIsNode(heap);
      HoldsFrame(old(mem), mem, heap);
    }

    /** shm_tree_merge. It runs wherever its links lead, also outside well-formed heaps. */
    method MergeAt(a: int, b: int, ghost fuel: nat) returns (r: int)
      requires MergeRaw(mem, a, b, fuel).Merged?
      modifies this`mem
      ensures MergeResult.Merged(mem, r) == MergeRaw(old(mem), a, b, fuel)
      decreases fuel
    {
      if a == SHM_NULL {
        return b;
      }
      if b == SHM_NULL {
        return a;
      }
      var t1, t2 := a, b;
      if t1 > t2 {
        t1, t2 := t2, t1;
      }
      var rnode := MergeAt(mem[t1].right, t2, fuel - 1);
      HookAt(t1, rnode);
      r := t1;
    }

    /** The end of one call of shm_tree_merge. */
    method HookAt(t1: int, rnode: int)
      requires Hook(mem, t1, rnode).Merged?
      modifies this`mem
      ensures MergeResult.Merged(mem, t1) == Hook(old(mem), t1, rnode)
    {
      mem := mem[rnode := mem[rnode].(root := t1)];
      mem := mem[t1 := mem[t1].(right := rnode)];
      if mem[t1].left == SHM_NULL {
        mem := mem[t1 := mem[t1].(left := mem[t1].right, right := SHM_NULL)];
      } else {
        var lnode := mem[t1].left;
        if mem[lnode].rank < mem[rnode].rank {
          mem := mem[t1 := mem[t1].(left := mem[t1].right, right := mem[t1].left, rank := mem[lnode].rank + 1)];
        } else {
          mem := mem[t1 := mem[t1].(rank := mem[rnode].rank + 1)];
        }
      }
    }

    /** shm_tree_push of a node without links. */
    method Push(node: int)
      requires Valid() && node > 0 && node in mem && node !in Members() && Detached(mem[node])
      modifies this
      ensures Valid() && Members() == old(Members()) + {node}
      ensures Elsewhere(old(mem), mem, Members())
      ensures old(Leftist(heap)) && old(mem)[node].rank == 0 ==> Leftist(heap)
    {
      hide Merge, MergeRaw, Holds, Ordered, Leftist, RunHeap.Distinct, Nodes, Spine, Weight;
      ghost var single := SingleHeap(mem, node);
      ghost var fuel := Spine(heap) + Spine(single);
      MergeHolds(mem, heap, single, fuel);
      RootIsNode(heap);
      MergeOrdered(heap, single);
      if Leftist(heap) && single.rank == 0 { MergeLeftist(heap, single); }
      MergeRoot(heap, single);
      root := MergeAt(root, node, fuel);
      heap := Merge(heap, single);
      size := size + 1;
    }

    /** shm_tree_push of any node, wherever its links lead, if the merge ends. The pool is one of
        exactly the old members and the node if and only if the node has no links. */
    method PushAsIs(node: int, ghost fuel: nat)
      requires Valid() && node > 0 && node in mem && node !in Members() && MergeRaw(mem, root, node, fuel).Merged?
      modifies this`root, this`size, this`mem
      ensures MergeResult.Merged(mem, root) == MergeRaw(old(mem), old(root), node, fuel) && size == old(size) + 1
      ensures IsHeapOf(mem, root, old(Members()) + {node}) <==>
        old(mem)[node].left == SHM_NULL && old(mem)[node].right == SHM_NULL
    {
      PushExact(mem, heap, node, fuel);
      root := MergeAt(root, node, fuel);
      size := size + 1;
    }

    /** shm_tree_pop. In the code the node taken out keeps its links, so it is without links
        afterwards exactly if it was alone. */
    method Pop()
      requires Valid() && size > 0
      modifies this
      ensures Valid() && Members() == old(Members()) - {old(root)} && old(root) in old(Members())
      ensures Elsewhere(old(mem), mem, old(Members()))
      ensures old(root) in mem && mem[old(root)].root == SHM_NULL
      ensures (Detached(mem[old(root)]) <==> clears || old(size) == 1)
      ensures old(Leftist(heap)) ==> Leftist(heap)
    {
      hide Merge, MergeRaw, Holds, Ordered, Leftist, RunHeap.Distinct, Nodes, Spine, Weight;
      ghost var t, m0 := heap, mem;
      SizeOfHeap(t);
      NodesParts(t);
      HeapParts(mem, t);
      var node := root;
      var left, right := mem[node].left, mem[node].right;
      MergeBelow(t, left, right);
      ghost var m1 := mem;
      size := size - 1;
      if clears {
        mem := mem[node := mem[node].(left := SHM_NULL, right := SHM_NULL)];
        HoldsFrame(m1, mem, heap);
      }
      RootIsNode(heap);
    }

    /** What is left of the heap `t` without its root becomes the pool's heap. */
    method MergeBelow(ghost t: Heap, left: int, right: int)
      requires t.Tree? && Holds(mem, t.left) && Holds(mem, t.right) && RunHeap.Distinct(t.left)
      requires RunHeap.Distinct(t.right)
      requires Nodes(t.left) !! Nodes(t.right) && Ordered(t.left) && Ordered(t.right)
      requires left == RootOf(t.left) && right == RootOf(t.right)
      modifies this`root, this`mem, this`heap
      ensures heap == Merge(t.left, t.right) && root == RootOf(heap) && Holds(mem, heap) && RunHeap.Distinct(heap)
      ensures Ordered(heap)
      ensures Nodes(heap) == Nodes(t.left) + Nodes(t.right)
      ensures (heap.Tree? ==> heap.pos in mem && mem[heap.pos].root == SHM_NULL)
      ensures Elsewhere(old(mem), mem, Nodes(t.left) + Nodes(t.right))
      ensures (Leftist(t.left) && Leftist(t.right) ==> Leftist(heap))
    {
      hide Merge, MergeRaw, Holds, Ordered, Leftist, RunHeap.Distinct, Nodes, Spine, Weight;
      ghost var fuel := Spine(t.left) + Spine(t.right);
      MergeHolds(mem, t.left, t.right, fuel);
      MergeOrdered(t.left, t.right);
      if Leftist(t.left) && Leftist(t.right) { MergeLeftist(t.left, t.right); }
      var r := MergeAt(left, right, fuel);
      heap := Merge(t.left, t.right);
      HoldsNodes(mem, heap);
      RootIsNode(heap);
      if r != SHM_NULL {
        ghost var m1 := mem;
        mem := mem[r := mem[r].(root := SHM_NULL)];
        HoldsReroot(m1, mem, heap);
      }
      root := r;
    }

    lemma SizeCounts()
      requires Valid()
      ensures size == |Members()| && (size > 0 ==> root in Members()) && (root == SHM_NULL <==> Members() == {})
      ensures forall n :: n in Members() ==> n > 0 && root <= n
    {
      SizeOfHeap(heap);
      RootIsNode(heap);
      HoldsNodes(mem, heap);
      RootLeast(heap);
    }

    lemma MembersPositive()
      requires Valid()
      ensures forall n :: n in Members() ==> n > 0 && n in mem
      ensures Members() != {} ==> heap.Tree?
    {
      HoldsNodes(mem, heap);
    }

    /** shm_tree_remove of any member. */
    method Remove(node: int)
      requires Valid() && node in Members()
      modifies this
      ensures Valid() && Members() == old(Members()) - {node}
      ensures Elsewhere(old(mem), mem, old(Members()))
    {
      hide Merge, MergeRaw, Holds, Ordered, RunHeap.Distinct, Nodes, Spine, RunHeap.Remove, Find, ParentOf;
      MembersPositive();
      if root == node {
        NodesParts(heap);
        Pop();
      } else {
        RemoveInner(node);
      }
    }

    method RemoveInner(node: int)
      requires Valid() && node in Members() && root != node
      modifies this
      ensures Valid() && Members() == old(Members()) - {node}
      ensures Elsewhere(old(mem), mem, old(Members()))
    {
      hide Merge, MergeRaw, Holds, Ordered, RunHeap.Distinct, Nodes, Spine, RunHeap.Remove, Find, ParentOf, Leftist;
      hide Replaced;
      ghost var t, m := heap, mem;
      MembersPositive();
      ParentKnown(m, t, node);
      ghost var u := Find(t, node);
      HeapChildren(m, u);
      ghost var fuel := Spine(u.left) + Spine(u.right);
      MergeHolds(m, u.left, u.right, fuel);
      RemoveNodes(t, node);
      RootIsNode(t);
      var left, right := mem[node].left, mem[node].right;
      var r := MergeAt(left, right, fuel);
      var parent := mem[node].root;
      Relink(node, parent, r, t, u, m);
      heap := RunHeap.Remove(t, node);
      size := size - 1;
    }

    /** The end of shm_tree_remove: what is left of the node's parts goes under its parent. */
    method Relink(node: int, parent: int, r: int, ghost t: Heap, ghost u: Heap, ghost m: HeapMemory)
      requires Holds(m, t) && Distinct(t) && t.Tree? && node in Nodes(t) && node != t.pos && node != 0
      requires u == Find(t, node) && u.Tree? && u.pos == node && Nodes(u) <= Nodes(t) && Distinct(u)
      requires parent == ParentOf(t, node) && parent in m && parent in Nodes(t) && parent !in Nodes(u)
      requires Holds(mem, Merge(u.left, u.right)) && Distinct(Merge(u.left, u.right))
      requires r == RootOf(Merge(u.left, u.right))
      requires Nodes(Merge(u.left, u.right)) == Nodes(u.left) + Nodes(u.right)
      requires Elsewhere(m, mem, Nodes(u.left) + Nodes(u.right))
      modifies this`mem
      ensures Holds(mem, RunHeap.Remove(t, node)) && RunHeap.Remove(t, node).Tree?
      ensures RunHeap.Remove(t, node).pos == t.pos
      ensures mem[t.pos].root == m[t.pos].root && Elsewhere(m, mem, Nodes(t) - {node})
    {
      hide Merge, Ordered, RunHeap.Remove, Find, ParentOf, Nodes, RunHeap.Distinct, Leftist, Spine, Weight;
      ghost var k := Merge(u.left, u.right);
      NodesParts(u);
      RootIsNode(k);
      RootIsNode(t);
      ghost var m1 := mem;
      if r != SHM_NULL {
        mem := mem[r := mem[r].(root := parent)];
        HoldsReroot(m1, mem, k);
      }
      ghost var m2 := mem;
      if node == mem[parent].left {
        mem := mem[parent := mem[parent].(left := r)];
      } else {
        mem := mem[parent := mem[parent].(right := r)];
      }
      HoldsFrame(m2, mem, k);
      ReplacedHolds(m, mem, t, node);
    }
  }
}
