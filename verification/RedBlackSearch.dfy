/** rbtree_lower on the tree it walks: what it returns, for any comparator and for an
    ordered tree, and when that is the first key not below the probe. */
module RedBlackSearch {
  import opened RedBlackShape
  import opened RedBlackMemory
  import opened KeyOrder

  ghost predicate Fits<K(!new)>(m: Memory<K>, cmp: (K, K) -> int, n: int, v: K) {
    n in m && cmp(m[n].v, v) >= 0
  }

  /** The search before its first fitting node. */
  ghost function Lower<K(!new)>(m: Memory<K>, cmp: (K, K) -> int, t: Tree, v: K): int {
    match t
    case Leaf => 0
    case Node(l, n, _, r) => if Fits(m, cmp, n, v) then LowerLeft(m, cmp, l, v, n) else Lower(m, cmp, r, v)
  }

  /** The search after it: it goes left and gives up at the first node that does not fit. */
  ghost function LowerLeft<K(!new)>(m: Memory<K>, cmp: (K, K) -> int, t: Tree, v: K, prev: int): int {
    match t
    case Leaf => prev
    case Node(l, n, _, r) => if Fits(m, cmp, n, v) then LowerLeft(m, cmp, l, v, n) else prev
  }

  /** The subtree the search should still have entered when it gave up. */
  ghost function Skipped<K(!new)>(m: Memory<K>, cmp: (K, K) -> int, t: Tree, v: K): Tree {
    match t
    case Leaf => Leaf
    case Node(l, n, _, r) => if Fits(m, cmp, n, v) then SkippedLeft(m, cmp, l, v) else Skipped(m, cmp, r, v)
  }

  ghost function SkippedLeft<K(!new)>(m: Memory<K>, cmp: (K, K) -> int, t: Tree, v: K): Tree {
    match t
    case Leaf => Leaf
    case Node(l, n, _, r) => if Fits(m, cmp, n, v) then SkippedLeft(m, cmp, l, v) else r
  }

  /** The first fitting node in order, 0 if there is none: what a lower bound is. */
  ghost function FirstFit<K(!new)>(m: Memory<K>, cmp: (K, K) -> int, s: seq<int>, v: K): int {
    if s == [] then 0 else if Fits(m, cmp, s[0], v) then s[0] else FirstFit(m, cmp, s[1..], v)
  }

  // ----- for every comparator -----

  lemma {:induction false} LowerLeftFits<K(!new)>(m: Memory<K>, cmp: (K, K) -> int, t: Tree, v: K, prev: int)
    requires Fits(m, cmp, prev, v)
    ensures var r := LowerLeft(m, cmp, t, v, prev); Fits(m, cmp, r, v) && (r == prev || r in Ids(t))
  {
    match t
    case Leaf =>
    case Node(l, n, _, r) => if Fits(m, cmp, n, v) { LowerLeftFits(m, cmp, l, v, n); }
  }

  /** Whatever the comparator, a node returned is in the tree and fits. */
  lemma {:induction false} LowerFits<K(!new)>(m: Memory<K>, cmp: (K, K) -> int, t: Tree, v: K)
    ensures var r := Lower(m, cmp, t, v); r == 0 || (r in Ids(t) && Fits(m, cmp, r, v))
  {
    match t
    case Leaf =>
    case Node(l, n, _, r) => if Fits(m, cmp, n, v) { LowerLeftFits(m, cmp, l, v, n); } else { LowerFits(m, cmp, r, v); }
  }

  lemma {:induction false} LowerLeftFirst<K(!new)>(m: Memory<K>, cmp: (K, K) -> int, t: Tree, v: K, prev: int)
    requires forall n :: n in Ids(t) ==> Fits(m, cmp, n, v)
    ensures LowerLeft(m, cmp, t, v, prev) == if t.Leaf? then prev else Elems(t)[0]
  {
    match t
    case Leaf =>
    case Node(l, n, _, r) => LowerLeftFirst(m, cmp, l, v, n);
  }

  /** If every node fits, the leftmost one is returned. */
  lemma LowerFirst<K(!new)>(m: Memory<K>, cmp: (K, K) -> int, t: Tree, v: K)
    requires t.Node? && forall n :: n in Ids(t) ==> Fits(m, cmp, n, v)
    ensures Lower(m, cmp, t, v) == Elems(t)[0]
  {
    LowerLeftFirst(m, cmp, t.left, v, t.id);
  }

  // ----- for ordered trees -----

  /** In `s`, nothing that fits comes before something that does not. */
  ghost predicate Cut<K(!new)>(m: Memory<K>, cmp: (K, K) -> int, s: seq<int>, v: K) {
    forall i, j :: 0 <= i < j < |s| && Fits(m, cmp, s[i], v) ==> Fits(m, cmp, s[j], v)
  }

  lemma SortedCut<K(!new)>(m: Memory<K>, cmp: (K, K) -> int, s: seq<int>, v: K)
    requires TotalPreorder(cmp) && Sorted(m, cmp, s)
    ensures Cut(m, cmp, s, v)
  {
    forall i, j | 0 <= i < j < |s| && Fits(m, cmp, s[i], v) ensures Fits(m, cmp, s[j], v) {
      Flip(cmp, m[s[i]].v, v);
      Chain(cmp, v, m[s[i]].v, m[s[j]].v);
      NotBelow(cmp, v, m[s[j]].v);
    }
  }

  lemma NotBelow<K(!new)>(cmp: (K, K) -> int, a: K, b: K)
    requires TotalPreorder(cmp) && cmp(a, b) <= 0
    ensures cmp(b, a) >= 0
  {
    assert !(cmp(b, a) < 0);
  }

  lemma {:induction false} FirstFitConcat<K(!new)>(m: Memory<K>, cmp: (K, K) -> int, a: seq<int>, b: seq<int>, v: K)
    requires forall i :: 0 <= i < |a| ==> a[i] != 0
    ensures FirstFit(m, cmp, a + b, v) == if FirstFit(m, cmp, a, v) != 0 then FirstFit(m, cmp, a, v)
      else FirstFit(m, cmp, b, v)
  {
    if a == [] {
      assert a + b == b;
    } else {
      FirstFitConcat(m, cmp, a[1..], b, v);
      assert (a + b)[1..] == a[1..] + b;
    }
  }

  lemma {:induction false} FirstFitNone<K(!new)>(m: Memory<K>, cmp: (K, K) -> int, s: seq<int>, v: K)
    requires forall i :: 0 <= i < |s| ==> s[i] != 0
    ensures FirstFit(m, cmp, s, v) == 0 <==> forall i :: 0 <= i < |s| ==> !Fits(m, cmp, s[i], v)
  {
    if s != [] { FirstFitNone(m, cmp, s[1..], v); }
  }

  /** Cutting an order at a node that does not fit: nothing before it fits. */
  lemma CutSplit<K(!new)>(m: Memory<K>, cmp: (K, K) -> int, a: seq<int>, n: int, b: seq<int>, v: K)
    requires Cut(m, cmp, a + [n] + b, v) && (forall i :: 0 <= i < |a| ==> a[i] != 0) && n != 0
    ensures Cut(m, cmp, a, v) && Cut(m, cmp, b, v)
    ensures Fits(m, cmp, n, v) ==>
      FirstFit(m, cmp, a + [n] + b, v) == if FirstFit(m, cmp, a, v) != 0 then FirstFit(m, cmp, a, v) else n
    ensures !Fits(m, cmp, n, v) ==> FirstFit(m, cmp, a + [n] + b, v) == FirstFit(m, cmp, b, v)
  {
    var s := a + [n] + b;
    forall i, j | 0 <= i < j < |a| && Fits(m, cmp, a[i], v) ensures Fits(m, cmp, a[j], v) {
      assert s[i] == a[i] && s[j] == a[j];
    }
    forall i, j | 0 <= i < j < |b| && Fits(m, cmp, b[i], v) ensures Fits(m, cmp, b[j], v) {
      assert s[|a| + 1 + i] == b[i] && s[|a| + 1 + j] == b[j];
    }
    assert s == a + ([n] + b);
    FirstFitConcat(m, cmp, a, [n] + b, v);
    assert ([n] + b)[1..] == b;
    if !Fits(m, cmp, n, v) {
      forall i | 0 <= i < |a| ensures !Fits(m, cmp, a[i], v) { assert s[i] == a[i] && s[|a|] == n; }
      FirstFitNone(m, cmp, a, v);
    }
  }

  lemma {:induction false} ElemsNonzero(t: Tree)
    requires 0 !in Ids(t)
    ensures forall i :: 0 <= i < |Elems(t)| ==> Elems(t)[i] != 0
  {
    ElemsIds(t);
    forall i | 0 <= i < |Elems(t)| ensures Elems(t)[i] != 0 { assert Elems(t)[i] in Elems(t); }
  }

  /** In the left-going part: the first fitting node in order is the one of the skipped
      subtree if that has any, and the one the search returns otherwise. */
  lemma {:induction false} LowerLeftExact<K(!new)>(m: Memory<K>, cmp: (K, K) -> int, t: Tree, v: K, prev: int)
    requires Cut(m, cmp, Elems(t), v) && 0 !in Ids(t)
    ensures var skipped := FirstFit(m, cmp, Elems(SkippedLeft(m, cmp, t, v)), v);
      (if FirstFit(m, cmp, Elems(t), v) != 0 then FirstFit(m, cmp, Elems(t), v) else prev)
        == if skipped != 0 then skipped else LowerLeft(m, cmp, t, v, prev)
    ensures Ids(SkippedLeft(m, cmp, t, v)) <= Ids(t)
  {
    match t
    case Leaf =>
    case Node(l, n, _, r) =>
      ElemsNonzero(l);
      CutSplit(m, cmp, Elems(l), n, Elems(r), v);
      if Fits(m, cmp, n, v) { LowerLeftExact(m, cmp, l, v, n); }
  }

  lemma {:induction false} LowerExact<K(!new)>(m: Memory<K>, cmp: (K, K) -> int, t: Tree, v: K)
    requires Cut(m, cmp, Elems(t), v) && 0 !in Ids(t)
    ensures var skipped := FirstFit(m, cmp, Elems(Skipped(m, cmp, t, v)), v);
      FirstFit(m, cmp, Elems(t), v) == if skipped != 0 then skipped else Lower(m, cmp, t, v)
    ensures Ids(Skipped(m, cmp, t, v)) <= Ids(t)
    ensures Lower(m, cmp, t, v) == 0 ==> FirstFit(m, cmp, Elems(t), v) == 0
  {
    match t
    case Leaf =>
    case Node(l, n, _, r) =>
      ElemsNonzero(l);
      CutSplit(m, cmp, Elems(l), n, Elems(r), v);
      if Fits(m, cmp, n, v) {
        LowerLeftExact(m, cmp, l, v, n);
        LowerLeftFits(m, cmp, l, v, n);
      } else {
        LowerExact(m, cmp, r, v);
      }
  }

  /** On an ordered tree the search finds something exactly if something fits. */
  lemma LowerComplete<K(!new)>(m: Memory<K>, cmp: (K, K) -> int, t: Tree, v: K)
    requires TotalPreorder(cmp) && Sorted(m, cmp, Elems(t)) && 0 !in Ids(t)
    ensures Lower(m, cmp, t, v) != 0 <==> exists n :: n in Ids(t) && Fits(m, cmp, n, v)
  {
    SortedCut(m, cmp, Elems(t), v);
    LowerExact(m, cmp, t, v);
    LowerFits(m, cmp, t, v);
    ElemsNonzero(t);
    FirstFitNone(m, cmp, Elems(t), v);
    ElemsIds(t);
    if n :| n in Ids(t) && Fits(m, cmp, n, v) {
      assert n in Elems(t);
      var i :| 0 <= i < |Elems(t)| && Elems(t)[i] == n;
    }
  }

  /** ... and what it finds is the first that fits exactly if nothing in the subtree it
      skipped fits. */
  lemma LowerIsFirst<K(!new)>(m: Memory<K>, cmp: (K, K) -> int, t: Tree, v: K)
    requires TotalPreorder(cmp) && Sorted(m, cmp, Elems(t)) && Distinct(t) && 0 !in Ids(t)
    ensures Lower(m, cmp, t, v) == FirstFit(m, cmp, Elems(t), v)
      <==> forall n :: n in Ids(Skipped(m, cmp, t, v)) ==> !Fits(m, cmp, n, v)
  {
    var u := Skipped(m, cmp, t, v);
    SortedCut(m, cmp, Elems(t), v);
    LowerExact(m, cmp, t, v);
    ElemsNonzero(u);
    FirstFitNone(m, cmp, Elems(u), v);
    FirstFitIn(m, cmp, Elems(u), v);
    ElemsIds(u);
    LowerOutside(m, cmp, t, v);
    if forall n :: n in Ids(u) ==> !Fits(m, cmp, n, v) {
      forall i | 0 <= i < |Elems(u)| ensures !Fits(m, cmp, Elems(u)[i], v) { assert Elems(u)[i] in Elems(u); }
    } else {
      var n :| n in Ids(u) && Fits(m, cmp, n, v);
      assert n in Elems(u);
      var i :| 0 <= i < |Elems(u)| && Elems(u)[i] == n;
    }
  }

  lemma {:induction false} FirstFitIn<K(!new)>(m: Memory<K>, cmp: (K, K) -> int, s: seq<int>, v: K)
    ensures FirstFit(m, cmp, s, v) != 0 ==> FirstFit(m, cmp, s, v) in s
  {
    if s != [] { FirstFitIn(m, cmp, s[1..], v); }
  }

  lemma {:induction false} LowerLeftOutside<K(!new)>(m: Memory<K>, cmp: (K, K) -> int, t: Tree, v: K, prev: int)
    requires Distinct(t) && prev !in Ids(t)
    ensures LowerLeft(m, cmp, t, v, prev) !in Ids(SkippedLeft(m, cmp, t, v))
    ensures Ids(SkippedLeft(m, cmp, t, v)) <= Ids(t)
  {
    match t
    case Leaf =>
    case Node(l, n, _, r) => if Fits(m, cmp, n, v) { LowerLeftOutside(m, cmp, l, v, n); }
  }

  lemma {:induction false} LowerOutside<K(!new)>(m: Memory<K>, cmp: (K, K) -> int, t: Tree, v: K)
    requires Distinct(t) && 0 !in Ids(t)
    ensures Lower(m, cmp, t, v) !in Ids(Skipped(m, cmp, t, v))
    ensures Ids(Skipped(m, cmp, t, v)) <= Ids(t)
  {
    match t
    case Leaf =>
    case Node(l, n, _, r) =>
      if Fits(m, cmp, n, v) { LowerLeftOutside(m, cmp, l, v, n); } else { LowerOutside(m, cmp, r, v); }
  }

  function Difference(a: int, b: int): int { a - b }

  /** It is not always the first: below 10, the search for 6 passes 5 and never looks at 7. */
  lemma LowerNotFirst() returns (m: Memory<int>, t: Tree)
    ensures Rep(m, t, 0) && Distinct(t) && RedBlack(t) && !IsRed(t) && Sorted(m, Difference, Elems(t))
    ensures Lower(m, Difference, t, 6) in m && m[Lower(m, Difference, t, 6)].v == 10
    ensures exists n :: n in Ids(t) && n in m && m[n].v == 7
  {
    var n5 := Node(Leaf, 2, Black, Node(Leaf, 4, Red, Leaf));
    t := Node(n5, 1, Black, Node(Leaf, 3, Black, Leaf));
    m := map[
      1 := NodeRec(1, 0, 2, 3, 10, Black),
      2 := NodeRec(2, 1, 0, 4, 5, Black),
      3 := NodeRec(3, 1, 0, 0, 15, Black),
      4 := NodeRec(4, 2, 0, 0, 7, Red)];
    assert Rep(m, Node(Leaf, 4, Red, Leaf), 2) && Rep(m, n5, 1) && Rep(m, Node(Leaf, 3, Black, Leaf), 1);
    assert Elems(Node(Leaf, 4, Red, Leaf)) == [4] && Elems(n5) == [2, 4] && Elems(Node(Leaf, 3, Black, Leaf)) == [3];
    assert Elems(t) == [2, 4, 1, 3];
    assert Fits(m, Difference, 1, 6) && !Fits(m, Difference, 2, 6);
    assert 4 in Ids(Node(Leaf, 4, Red, Leaf)) && 4 in Ids(n5) && 4 in Ids(t) && m[4].v == 7;
  }
}
