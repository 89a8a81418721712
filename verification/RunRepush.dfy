/** Putting a run back into the pool it was taken from. shm_tree_pop (src/shm_tree.h:36-47) leaves
    the links of the run it takes out as they are, and shm_tree_push (src/shm_tree.h:28-34) does
    not clear them; free_chunk_small (src/chunk_small.c:197-200) pushes such a run again. */
module RunRepush {
  import opened Basics
  import opened RunHeap

  ghost function LeftLinked(m: HeapMemory, s: set<int>): set<int> {
    set n | n in s && n in m && m[n].left != SHM_NULL
  }

  ghost function RightLinked(m: HeapMemory, s: set<int>): set<int> {
    set n | n in s && n in m && m[n].right != SHM_NULL
  }

  /** Number of child links of the nodes in `s`. */
  ghost function Links(m: HeapMemory, s: set<int>): int {
    |LeftLinked(m, s)| + |RightLinked(m, s)|
  }

  /** Child links of nodes in `s` lead to nodes in `s`. */
  ghost predicate Closed(m: HeapMemory, s: set<int>) {
    && SHM_NULL !in s && s <= m.Keys
    && forall n :: n in s ==> (m[n].left == SHM_NULL || m[n].left in s) && (m[n].right == SHM_NULL || m[n].right in s)
  }

  /** Number of child links of one node. */
  ghost function Degree(n: HeapNode): int {
    (if n.left != SHM_NULL then 1 else 0) + if n.right != SHM_NULL then 1 else 0
  }

  lemma SameElements<T>(s: set<T>, t: set<T>)
    requires forall i :: i in s <==> i in t
    ensures s == t
  {
  }

  lemma LinksSame(m: HeapMemory, m1: HeapMemory, s: set<int>)
    requires forall i :: i in s ==> (i in m <==> i in m1)
    requires forall i :: i in s && i in m ==> m1[i].left == m[i].left && m1[i].right == m[i].right
    ensures Links(m1, s) == Links(m, s)
  {
    forall i ensures i in LeftLinked(m1, s) <==> i in LeftLinked(m, s) { if i in s && i in m { assert i in m1; } }
    forall i ensures i in RightLinked(m1, s) <==> i in RightLinked(m, s) { if i in s && i in m { assert i in m1; } }
    SameElements(LeftLinked(m1, s), LeftLinked(m, s));
    SameElements(RightLinked(m1, s), RightLinked(m, s));
  }

  lemma SetSplit(s: set<int>, p: int, l: set<int>, b: bool)
    requires p !in l
    requires forall i :: i in s <==> (b && i == p) || i in l
    ensures |s| == |l| + if b then 1 else 0
  {
    var u := if b then l + {p} else l;
    forall i ensures i in s <==> i in u { if i == p { } }
    SameElements(s, u);
  }

  lemma LinksWith(m: HeapMemory, s: set<int>, p: int)
    requires p in m && p !in s
    ensures Links(m, s + {p}) == Links(m, s) + Degree(m[p])
  {
    SetSplit(LeftLinked(m, s + {p}), p, LeftLinked(m, s), m[p].left != SHM_NULL);
    SetSplit(RightLinked(m, s + {p}), p, RightLinked(m, s), m[p].right != SHM_NULL);
  }

  lemma LinksUnion(m: HeapMemory, l: set<int>, r: set<int>)
    requires l !! r
    ensures Links(m, l + r) == Links(m, l) + Links(m, r)
  {
    assert LeftLinked(m, l + r) == LeftLinked(m, l) + LeftLinked(m, r);
    assert RightLinked(m, l + r) == RightLinked(m, l) + RightLinked(m, r);
  }

  /** Hooking changes the child links of one node only, and leaves it with as many as it had and
      one more if its right one was missing. */
  lemma HookDegree(m: HeapMemory, a: int, r: int)
    requires a in m && r in m && r != SHM_NULL && Hook(m, a, r).Merged?
    ensures var h := Hook(m, a, r); h.r == a && h.m.Keys == m.Keys
    ensures var h := Hook(m, a, r);
      forall i :: i in m && i != a ==> h.m[i].left == m[i].left && h.m[i].right == m[i].right
    ensures var n := Hook(m, a, r).m[a]; {n.left, n.right} <= {m[a].left, r, SHM_NULL}
    ensures var n := Hook(m, a, r).m[a]; Degree(n) == if m[a].left == SHM_NULL then 1 else 2
  {
  }

  lemma HookLinks(m: HeapMemory, s: set<int>, a: int, r: int)
    requires Closed(m, s) && a in s && r in s && Hook(m, a, r).Merged?
    ensures var h := Hook(m, a, r); h.r == a && Closed(h.m, s) && Links(h.m, s) >= Links(m, s)
    ensures m[a].right == SHM_NULL ==> Links(Hook(m, a, r).m, s) >= Links(m, s) + 1
  {
    HookDegree(m, a, r);
    hide Hook, Links;
    var h, rest := Hook(m, a, r), s - {a};
    assert s == rest + {a};
    LinksWith(m, rest, a);
    LinksWith(h.m, rest, a);
    LinksSame(m, h.m, rest);
  }

  /** A merge never loses a child link, and gains one if both sides are there. */
  lemma {:induction false} MergeLinks(m: HeapMemory, s: set<int>, a: int, b: int, fuel: nat)
    requires Closed(m, s) && (a == SHM_NULL || a in s) && (b == SHM_NULL || b in s) && MergeRaw(m, a, b, fuel).Merged?
    ensures var h := MergeRaw(m, a, b, fuel);
      && Closed(h.m, s) && (h.r == SHM_NULL || h.r in s) && (h.r == SHM_NULL ==> a == SHM_NULL && b == SHM_NULL)
      && Links(h.m, s) >= Links(m, s) + if a != SHM_NULL && b != SHM_NULL then 1 else 0
    decreases fuel
  {
    hide Links, Hook;
    if a != SHM_NULL && b != SHM_NULL {
      var (t1, t2) := if a > b then (b, a) else (a, b);
      MergeLinks(m, s, m[t1].right, t2, fuel - 1);
      var h := MergeRaw(m, m[t1].right, t2, fuel - 1);
      HookLinks(h.m, s, t1, h.r);
    }
  }

  /** A tree has one child link less than nodes. */
  lemma {:induction false} TreeLinks(m: HeapMemory, t: Heap)
    requires Holds(m, t) && Distinct(t)
    ensures t.Tree? ==> Links(m, Nodes(t)) == |Nodes(t)| - 1
    ensures t.Empty? ==> Links(m, Nodes(t)) == 0
  {
    if t.Tree? {
      var l, r, p := t.left, t.right, t.pos;
      TreeLinks(m, l);
      TreeLinks(m, r);
      WeightNodes(t);
      WeightNodes(l);
      WeightNodes(r);
      NodesApart(t);
      hide Nodes, Links;
      LinksUnion(m, Nodes(l), Nodes(r));
      LinksWith(m, Nodes(l) + Nodes(r), p);
      if l.Tree? { HoldsNodes(m, l); NodesApart(l); }
      if r.Tree? { HoldsNodes(m, r); NodesApart(r); }
    }
  }

  lemma NodesApart(t: Heap)
    requires t.Tree? && Distinct(t)
    ensures Nodes(t.left) !! Nodes(t.right) && t.pos !in Nodes(t.left) + Nodes(t.right)
    ensures Nodes(t) == Nodes(t.left) + Nodes(t.right) + {t.pos} && t.pos in Nodes(t)
  {
  }

  /** More fuel does not change a result. */
  lemma {:induction false} MergeFuel(m: HeapMemory, a: int, b: int, f: nat, g: nat)
    requires f <= g && MergeRaw(m, a, b, f).Merged?
    ensures MergeRaw(m, a, b, g) == MergeRaw(m, a, b, f)
    decreases f
  {
    if a != SHM_NULL && b != SHM_NULL {
      var (t1, t2) := if a > b then (b, a) else (a, b);
      MergeFuel(m, m[t1].right, t2, f - 1, g - 1);
    }
  }

  ghost predicate IsHeapOf(m: HeapMemory, r: int, s: set<int>) {
    exists u: Heap :: Holds(m, u) && Distinct(u) && RootOf(u) == r && Nodes(u) == s
  }

  // ----- links that lead out of the heap -----

  /** `n` has a child link that leads neither into `s` nor nowhere. */
  ghost predicate LeadsOut(m: HeapMemory, s: set<int>, n: int) {
    n in m && ((m[n].left != SHM_NULL && m[n].left !in s) || (m[n].right != SHM_NULL && m[n].right !in s))
  }

  /** A heap of exactly `s` has no such link. */
  lemma HeapStaysIn(m: HeapMemory, u: Heap, n: int)
    requires Holds(m, u) && n in Nodes(u)
    ensures !LeadsOut(m, Nodes(u), n)
  {
    HeapClosed(m, u);
  }

  /** A merge of a heap with a node outside `s`: that node comes out on top, or a node of the heap
      gets a link that leads out. The heap runs out before the other side can. */
  lemma {:induction false} MergeOutside(m: HeapMemory, t: Heap, y: int, s: set<int>, fuel: nat)
    requires Holds(m, t) && Distinct(t) && Nodes(t) <= s && y != SHM_NULL && y !in s
    requires MergeRaw(m, RootOf(t), y, fuel).Merged?
    ensures var h := MergeRaw(m, RootOf(t), y, fuel);
      h.m.Keys == m.Keys && (h.r == y || exists n :: n in Nodes(t) && LeadsOut(h.m, s, n))
    decreases t
  {
    hide Hook;
    if t.Tree? {
      NodesApart(t);
      if t.pos < y {
        MergeOutside(m, t.right, y, s, fuel - 1);
        var h := MergeRaw(m, m[t.pos].right, y, fuel - 1);
        HookLeads(h.m, t.pos, h.r, s);
      } else {
        MergeKeys(m, m[y].right, t.pos, fuel - 1);
        var h := MergeRaw(m, m[y].right, t.pos, fuel - 1);
        HookLeads(h.m, y, h.r, s);
      }
    }
  }

  /** Hooking: the node itself comes out on top; its left link, if any, and the new one are its
      links afterwards; no other node's links change. */
  lemma HookLeads(m: HeapMemory, a: int, r: int, s: set<int>)
    requires Hook(m, a, r).Merged?
    ensures var h := Hook(m, a, r); h.r == a && h.m.Keys == m.Keys && a in m && r in m
    ensures var h := Hook(m, a, r); forall i :: i in m && i != a ==> (LeadsOut(h.m, s, i) <==> LeadsOut(m, s, i))
    ensures r != SHM_NULL && r !in s ==> LeadsOut(Hook(m, a, r).m, s, a)
    ensures m[a].left != SHM_NULL && m[a].left !in s ==> LeadsOut(Hook(m, a, r).m, s, a)
  {
  }

  lemma {:induction false} MergeKeys(m: HeapMemory, a: int, b: int, fuel: nat)
    requires MergeRaw(m, a, b, fuel).Merged?
    ensures MergeRaw(m, a, b, fuel).m.Keys == m.Keys
    decreases fuel
  {
    hide Hook;
    if a != SHM_NULL && b != SHM_NULL {
      var (t1, t2) := if a > b then (b, a) else (a, b);
      MergeKeys(m, m[t1].right, t2, fuel - 1);
      var h := MergeRaw(m, m[t1].right, t2, fuel - 1);
      HookLeads(h.m, t1, h.r, {});
    }
  }

  /** A merge within a closed set changes no link elsewhere. */
  lemma {:induction false} MergeWithin(m: HeapMemory, s: set<int>, a: int, b: int, x: int, fuel: nat)
    requires Closed(m, s) && (a == SHM_NULL || a in s) && (b == SHM_NULL || b in s) && x !in s && x in m
    requires MergeRaw(m, a, b, fuel).Merged?
    ensures var h := MergeRaw(m, a, b, fuel);
      h.m.Keys == m.Keys && h.m[x].left == m[x].left && h.m[x].right == m[x].right
    decreases fuel
  {
    hide Hook;
    if a != SHM_NULL && b != SHM_NULL {
      var (t1, t2) := if a > b then (b, a) else (a, b);
      MergeWithin(m, s, m[t1].right, t2, x, fuel - 1);
      var h := MergeRaw(m, m[t1].right, t2, fuel - 1);
      MergeLinks(m, s, m[t1].right, t2, fuel - 1);
      HookDegree(h.m, t1, h.r);
    }
  }

  /** The right link of `x` leads out of `s`: after the merge some node of `s` has such a link. */
  lemma {:induction false} RightOut(m: HeapMemory, t: Heap, x: int, s: set<int>, fuel: nat)
    requires Holds(m, t) && Distinct(t) && x > 0 && x in m && x !in Nodes(t) && Nodes(t) + {x} <= s
    requires m[x].right != SHM_NULL && m[x].right !in s && MergeRaw(m, RootOf(t), x, fuel).Merged?
    ensures var h := MergeRaw(m, RootOf(t), x, fuel); exists n :: n in Nodes(t) + {x} && LeadsOut(h.m, s, n)
    decreases t
  {
    hide Hook;
    if t.Empty? {
      assert x in Nodes(t) + {x} && LeadsOut(m, s, x);
    } else {
      NodesApart(t);
      if x < t.pos {
        MergeOutside(m, t, m[x].right, s, fuel - 1);
        MergeFlip(m, t.pos, m[x].right, fuel - 1);
        var h := MergeRaw(m, m[x].right, t.pos, fuel - 1);
        HookLeads(h.m, x, h.r, s);
        if h.r == m[x].right {
          assert x in Nodes(t) + {x};
        } else {
          var n :| n in Nodes(t) && LeadsOut(h.m, s, n);
          assert n in Nodes(t) + {x};
        }
      } else {
        RightOut(m, t.right, x, s, fuel - 1);
        var h := MergeRaw(m, m[t.pos].right, x, fuel - 1);
        HookLeads(h.m, t.pos, h.r, s);
        var n :| n in Nodes(t.right) + {x} && LeadsOut(h.m, s, n);
        assert n in Nodes(t) + {x} && n != t.pos;
      }
    }
  }

  lemma MergeFlip(m: HeapMemory, a: int, b: int, fuel: nat)
    requires a != b
    ensures MergeRaw(m, a, b, fuel) == MergeRaw(m, b, a, fuel)
  {
  }

  /** The left link of `x` leads out of `s`, the right one does not: `x` is passed once and keeps
      that link. */
  lemma {:induction false} LeftOut(m: HeapMemory, t: Heap, x: int, u: Heap, fuel: nat)
    requires Holds(m, u) && Distinct(u) && x !in Nodes(u) && Holds(m, t) && Distinct(t) && Nodes(t) <= Nodes(u) && x > 0
    requires x in m
    requires m[x].left != SHM_NULL && m[x].left !in Nodes(u) + {x} && (m[x].right == SHM_NULL || m[x].right in Nodes(u))
    requires MergeRaw(m, RootOf(t), x, fuel).Merged?
    ensures var h := MergeRaw(m, RootOf(t), x, fuel); LeadsOut(h.m, Nodes(u) + {x}, x)
    decreases t
  {
    hide Hook;
    var s := Nodes(u) + {x};
    if t.Tree? {
      NodesApart(t);
      HeapClosed(m, u);
      if x < t.pos {
        MergeWithin(m, Nodes(u), m[x].right, t.pos, x, fuel - 1);
        var h := MergeRaw(m, m[x].right, t.pos, fuel - 1);
        HookLeads(h.m, x, h.r, s);
      } else {
        LeftOut(m, t.right, x, u, fuel - 1);
        var h := MergeRaw(m, m[t.pos].right, x, fuel - 1);
        HookLeads(h.m, t.pos, h.r, s);
      }
    }
  }

  /** A node that is its own right child is never passed. */
  lemma {:induction false} SelfRight(m: HeapMemory, t: Heap, x: int, s: set<int>, fuel: nat)
    requires Holds(m, t) && Distinct(t) && x > 0 && x in m && x !in Nodes(t) && m[x].right == x && LeadsOut(m, s, x)
    requires MergeRaw(m, RootOf(t), x, fuel).Merged?
    ensures var h := MergeRaw(m, RootOf(t), x, fuel); LeadsOut(h.m, s, x)
    decreases t
  {
    hide Hook;
    if t.Tree? {
      NodesApart(t);
      if x < t.pos {
        MergeFlip(m, t.pos, x, fuel);
        Endless(m, x, t.pos, fuel);
      } else {
        SelfRight(m, t.right, x, s, fuel - 1);
        var h := MergeRaw(m, m[t.pos].right, x, fuel - 1);
        HookLeads(h.m, t.pos, h.r, s);
      }
    }
  }

  lemma {:induction false} Endless(m: HeapMemory, x: int, y: int, fuel: nat)
    requires x in m && x != SHM_NULL && m[x].right == x && x < y && y != SHM_NULL
    ensures !MergeRaw(m, x, y, fuel).Merged?
    decreases fuel
  {
    if y in m && fuel > 0 { Endless(m, x, y, fuel - 1); }
  }

  /** A merge that ends with a link that leads out is no heap of the right nodes. */
  lemma NoHeap(m: HeapMemory, r: int, s: set<int>, n: int)
    requires n in s && LeadsOut(m, s, n)
    ensures !IsHeapOf(m, r, s)
  {
    hide Holds, Nodes, RunHeap.Distinct, LeadsOut;
    forall u: Heap | Holds(m, u) && RunHeap.Distinct(u) && RootOf(u) == r && Nodes(u) == s ensures false {
      HeapStaysIn(m, u, n);
    }
  }

  /** Pushing `x` onto the heap `t`, wherever the links that `x` still has lead: if the merge ends at
      all, the result is a heap of exactly the old nodes and `x` if and only if `x` had no links. */
  lemma PushExact(m: HeapMemory, t: Heap, x: int, fuel: nat)
    requires Holds(m, t) && Distinct(t) && x > 0 && x in m && x !in Nodes(t) && MergeRaw(m, RootOf(t), x, fuel).Merged?
    ensures var h := MergeRaw(m, RootOf(t), x, fuel);
      IsHeapOf(h.m, h.r, Nodes(t) + {x}) <==> m[x].left == SHM_NULL && m[x].right == SHM_NULL
  {
    hide Nodes, Holds, RunHeap.Distinct, Links, MergeRaw, IsHeapOf;
    var s, h, l, r := Nodes(t) + {x}, MergeRaw(m, RootOf(t), x, fuel), m[x].left, m[x].right;
    if l == SHM_NULL && r == SHM_NULL {
      PushDetached(m, t, x, fuel);
    } else if r != SHM_NULL && r !in s {
      RightOut(m, t, x, s, fuel);
      var n :| n in s && LeadsOut(h.m, s, n);
      NoHeap(h.m, h.r, s, n);
    } else if l != SHM_NULL && l !in s {
      if r == x { SelfRight(m, t, x, s, fuel); } else { LeftOut(m, t, x, t, fuel); }
      NoHeap(h.m, h.r, s, x);
    } else {
      TooManyLinks(m, t, x, fuel);
    }
  }

  /** Links that stay within: there are more of them afterwards than a heap can have. */
  lemma TooManyLinks(m: HeapMemory, t: Heap, x: int, fuel: nat)
    requires Holds(m, t) && Distinct(t) && x > 0 && x in m && x !in Nodes(t) && MergeRaw(m, RootOf(t), x, fuel).Merged?
    requires Degree(m[x]) > 0 && (m[x].left == SHM_NULL || m[x].left in Nodes(t) + {x})
    requires (m[x].right == SHM_NULL || m[x].right in Nodes(t) + {x})
    ensures var h := MergeRaw(m, RootOf(t), x, fuel); !IsHeapOf(h.m, h.r, Nodes(t) + {x})
  {
    hide Nodes, Holds, RunHeap.Distinct, Links, MergeRaw;
    HeapClosed(m, t);
    var s, h := Nodes(t) + {x}, MergeRaw(m, RootOf(t), x, fuel);
    MergeLinks(m, s, RootOf(t), x, fuel);
    TreeLinks(m, t);
    LinksWith(m, Nodes(t), x);
    NoNodes(t);
    forall u: Heap | Holds(h.m, u) && RunHeap.Distinct(u) && RootOf(u) == h.r && Nodes(u) == s ensures false {
      TreeLinks(h.m, u);
      NoNodes(u);
    }
  }

  lemma NoNodes(t: Heap)
    ensures t.Empty? ==> Nodes(t) == {}
  {
  }

  lemma PushDetached(m: HeapMemory, t: Heap, x: int, fuel: nat)
    requires Holds(m, t) && Distinct(t) && x > 0 && x in m && x !in Nodes(t) && Degree(m[x]) == 0
    requires MergeRaw(m, RootOf(t), x, fuel).Merged?
    ensures var h := MergeRaw(m, RootOf(t), x, fuel); IsHeapOf(h.m, h.r, Nodes(t) + {x})
  {
    hide Nodes, Holds, RunHeap.Distinct, Merge, Spine, MergeRaw;
    var single := SingleHeap(m, x);
    var g := fuel + Spine(t) + Spine(single);
    MergeHolds(m, t, single, g);
    MergeFuel(m, RootOf(t), x, fuel, g);
    var u := Merge(t, single);
    assert Nodes(u) == Nodes(t) + {x};
  }

  lemma {:induction false} HeapClosed(m: HeapMemory, t: Heap)
    requires Holds(m, t)
    ensures Closed(m, Nodes(t)) && (t.Tree? ==> t.pos in Nodes(t))
  {
    if t.Tree? {
      HeapClosed(m, t.left);
      HeapClosed(m, t.right);
    }
  }

  /** Two runs 1 and 2 in a pool, 2 below 1. Run 1 fills up and is taken out, one of its slots
      is freed and it is put back: run 2 is now both children of run 1. It fills up again and is
      taken out: run 2 is its own child. */
  lemma TwoRuns(m: HeapMemory, popped: MergeResult, pushed: MergeResult, again: MergeResult)
    requires m == map[1 := HeapNode(0, 0, 2, 0), 2 := HeapNode(0, 1, 0, 0)]
    requires popped == MergeRaw(m, m[1].left, m[1].right, 4)
    requires popped.Merged? ==> pushed == MergeRaw(m[2 := m[2].(root := 0)], popped.r, 1, 4)
    requires pushed.Merged? && 1 in pushed.m ==> again == MergeRaw(pushed.m, pushed.m[1].left, pushed.m[1].right, 4)
    ensures Holds(m, Tree(1, 0, Tree(2, 0, Empty, Empty), Empty))
    ensures popped == Merged(m, 2)
    ensures pushed.Merged? && pushed.r == 1 && 1 in pushed.m && pushed.m[1].left == 2 && pushed.m[1].right == 2
    ensures again.Merged? && again.r == 2 && 2 in again.m && again.m[2].left == 2
  {
  }

  /** The same two runs. Run 1 fills up and is taken out, run 2 fills up and is taken out: the pool is
      empty. A slot of run 1 is freed and it is put back alone, with its old link to run 2; it fills
      up again and is taken out: the root of the pool is run 2, which has no free slot, and the next
      allocation stops at the assertion of malloc_run. */
  lemma EmptiedPool(m: HeapMemory, first: MergeResult, m1: HeapMemory, second: MergeResult, back: MergeResult,
      third: MergeResult)
    requires m == map[1 := HeapNode(0, 0, 2, 0), 2 := HeapNode(0, 1, 0, 0)] && m1 == m[2 := m[2].(root := 0)]
    requires first == MergeRaw(m, m[1].left, m[1].right, 4) && second == MergeRaw(m1, m1[2].left, m1[2].right, 4)
    requires second.Merged? ==> back == MergeRaw(second.m, second.r, 1, 4)
    requires back.Merged? && 1 in back.m ==> third == MergeRaw(back.m, back.m[1].left, back.m[1].right, 4)
    ensures Holds(m, Tree(1, 0, Tree(2, 0, Empty, Empty), Empty))
    ensures first == Merged(m, 2) && second == Merged(m1, SHM_NULL)
    ensures back == Merged(m1, 1) && m1[1].left == 2 && !IsHeapOf(m1, 1, {1})
    ensures third == Merged(m1, 2)
  {
    PushExact(m1, Empty, 1, 4);
  }
}
