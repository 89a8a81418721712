/** Comparators in the style of RB_COMPARE: negative, zero or positive. */
module KeyOrder {
  import opened RedBlackShape
  import opened RedBlackMemory

  ghost predicate TotalPreorder<K(!new)>(cmp: (K, K) -> int) {
    && (forall a :: cmp(a, a) == 0)
    && (forall a, b :: cmp(a, b) < 0 <==> cmp(b, a) > 0)
    && (forall a, b, c :: cmp(a, b) <= 0 && cmp(b, c) <= 0 ==> cmp(a, c) <= 0)
  }

  ghost predicate Known<K(!new)>(m: Memory<K>, s: seq<int>) {
    forall i :: 0 <= i < |s| ==> s[i] in m
  }

  ghost predicate Sorted<K(!new)>(m: Memory<K>, cmp: (K, K) -> int, s: seq<int>) {
    && Known(m, s)
    && forall i, j :: 0 <= i < j < |s| ==> cmp(m[s[i]].v, m[s[j]].v) <= 0
  }

  /** `v` belongs between `a` and `b` as far as the two neighbours can tell. */
  ghost predicate Between<K(!new)>(m: Memory<K>, cmp: (K, K) -> int, a: seq<int>, b: seq<int>, v: K) {
    && (a != [] ==> a[|a| - 1] in m && cmp(m[a[|a| - 1]].v, v) < 0)
    && (b != [] ==> b[0] in m && cmp(m[b[0]].v, v) >= 0)
  }

  ghost predicate AllBefore<K(!new)>(m: Memory<K>, cmp: (K, K) -> int, a: seq<int>, n: int) {
    n in m && forall i :: 0 <= i < |a| ==> a[i] in m && cmp(m[a[i]].v, m[n].v) <= 0
  }

  ghost predicate AllAfter<K(!new)>(m: Memory<K>, cmp: (K, K) -> int, n: int, b: seq<int>) {
    n in m && forall i :: 0 <= i < |b| ==> b[i] in m && cmp(m[n].v, m[b[i]].v) <= 0
  }

  lemma Chain<K(!new)>(cmp: (K, K) -> int, a: K, b: K, c: K)
    requires TotalPreorder(cmp) && cmp(a, b) <= 0 && cmp(b, c) <= 0
    ensures cmp(a, c) <= 0
  {
  }

  lemma Flip<K(!new)>(cmp: (K, K) -> int, a: K, b: K)
    requires TotalPreorder(cmp) && cmp(a, b) >= 0
    ensures cmp(b, a) <= 0
  {
    assert !(cmp(a, b) < 0);
  }

  lemma BetweenBefore<K(!new)>(m: Memory<K>, cmp: (K, K) -> int, a: seq<int>, n: int, b: seq<int>, i: nat)
    requires TotalPreorder(cmp) && n in m && Sorted(m, cmp, a + b) && Between(m, cmp, a, b, m[n].v) && i < |a|
    ensures a[i] in m && cmp(m[a[i]].v, m[n].v) <= 0
  {
    var s, l := a + b, |a| - 1;
    assert s[i] == a[i] && s[l] == a[l];
    if i < l { Chain(cmp, m[s[i]].v, m[s[l]].v, m[n].v); }
  }

  lemma BetweenAfter<K(!new)>(m: Memory<K>, cmp: (K, K) -> int, a: seq<int>, n: int, b: seq<int>, i: nat)
    requires TotalPreorder(cmp) && n in m && Sorted(m, cmp, a + b) && Between(m, cmp, a, b, m[n].v) && i < |b|
    ensures b[i] in m && cmp(m[n].v, m[b[i]].v) <= 0
  {
    var s, l := a + b, |a|;
    assert s[l + i] == b[i] && s[l] == b[0];
    Flip(cmp, m[b[0]].v, m[n].v);
    if i > 0 { Chain(cmp, m[n].v, m[s[l]].v, m[s[l + i]].v); }
  }

  lemma SortedJoin<K(!new)>(m: Memory<K>, cmp: (K, K) -> int, a: seq<int>, n: int, b: seq<int>)
    requires Sorted(m, cmp, a + b) && AllBefore(m, cmp, a, n) && AllAfter(m, cmp, n, b)
    ensures Sorted(m, cmp, a + [n] + b)
  {
    var s, t := a + b, a + [n] + b;
    forall i, j | 0 <= i < j < |t| ensures t[i] in m && t[j] in m && cmp(m[t[i]].v, m[t[j]].v) <= 0 {
      if i < |a| && j > |a| { assert s[i] == t[i] && s[j - 1] == t[j]; }
      else if j < |a| { assert s[i] == t[i] && s[j] == t[j]; }
      else if i > |a| { assert s[i - 1] == t[i] && s[j - 1] == t[j]; }
    }
  }

  /** With a total preorder, what holds of the two neighbours holds of everything. */
  lemma SortedInsert<K(!new)>(m: Memory<K>, cmp: (K, K) -> int, a: seq<int>, n: int, b: seq<int>)
    requires TotalPreorder(cmp) && n in m && Sorted(m, cmp, a + b) && Between(m, cmp, a, b, m[n].v)
    ensures Sorted(m, cmp, a + [n] + b)
  {
    forall i: nat | i < |a| ensures a[i] in m && cmp(m[a[i]].v, m[n].v) <= 0 { BetweenBefore(m, cmp, a, n, b, i); }
    forall i: nat | i < |b| ensures b[i] in m && cmp(m[n].v, m[b[i]].v) <= 0 { BetweenAfter(m, cmp, a, n, b, i); }
    assert AllBefore(m, cmp, a, n) && AllAfter(m, cmp, n, b);
    SortedJoin(m, cmp, a, n, b);
  }

  lemma SortedRemove<K(!new)>(m: Memory<K>, cmp: (K, K) -> int, a: seq<int>, n: int, b: seq<int>)
    requires Sorted(m, cmp, a + [n] + b)
    ensures Sorted(m, cmp, a + b)
  {
    var s, t := a + b, a + [n] + b;
    forall i | 0 <= i < |s| ensures s[i] == t[if i < |a| then i else i + 1] {}
    forall i, j | 0 <= i < j < |s| ensures s[i] in m && s[j] in m && cmp(m[s[i]].v, m[s[j]].v) <= 0 {
      var i', j' := if i < |a| then i else i + 1, if j < |a| then j else j + 1;
      assert t[i'] == s[i] && t[j'] == s[j];
    }
  }

  /** Order depends on keys only. */
  lemma SortedKeep<K(!new)>(m: Memory<K>, m': Memory<K>, cmp: (K, K) -> int, s: seq<int>)
    requires Sorted(m, cmp, s)
    requires forall i :: 0 <= i < |s| && s[i] in m ==> s[i] in m' && m'[s[i]].v == m[s[i]].v
    ensures Sorted(m', cmp, s)
  {
    assert Known(m', s) by { assert Known(m, s); }
  }

  /** `s'` is `s` with `n` put in at `k`, where its neighbours allow it. */
  ghost predicate InsertedAt<K(!new)>(m: Memory<K>, cmp: (K, K) -> int, s: seq<int>, s': seq<int>, n: int, k: nat) {
    && n in m && k <= |s|
    && s' == s[..k] + [n] + s[k..]
    && Between(m, cmp, s[..k], s[k..], m[n].v)
  }

  /** `s'` is `s` without its element `n`, which was at `k`. */
  ghost predicate RemovedAt(s: seq<int>, s': seq<int>, n: int, k: nat) {
    k < |s| && s[k] == n && s' == s[..k] + s[k + 1..]
  }

  lemma InsertKeepsOrder<K(!new)>(m: Memory<K>, m': Memory<K>, cmp: (K, K) -> int, s: seq<int>, s': seq<int>, n: int,
      k: nat)
    requires TotalPreorder(cmp) && Sorted(m, cmp, s) && InsertedAt(m, cmp, s, s', n, k)
    requires forall i :: i in m ==> i in m' && m'[i].v == m[i].v
    ensures Sorted(m', cmp, s')
  {
    assert s == s[..k] + s[k..];
    SortedInsert(m, cmp, s[..k], n, s[k..]);
    forall i | 0 <= i < |s'| && s'[i] in m ensures s'[i] in m' && m'[s'[i]].v == m[s'[i]].v {
      var x := s'[i]; assert x in m;
    }
    SortedKeep(m, m', cmp, s');
  }

  lemma LastOf(s: seq<int>, k: nat) returns (x: int)
    requires 0 < k <= |s|
    ensures s[..k] != [] && s[..k][|s[..k]| - 1] == x && x in s
  {
    x := s[k - 1];
  }

  /** Whatever the comparator, a node no other compares below is put first. */
  lemma InsertedFirst<K(!new)>(m: Memory<K>, cmp: (K, K) -> int, s: seq<int>, s': seq<int>, n: int, k: nat)
    requires InsertedAt(m, cmp, s, s', n, k)
    requires forall p {:trigger p in s} :: p in s && p in m ==> cmp(m[p].v, m[n].v) >= 0
    ensures s' == [n] + s
  {
    if k > 0 {
      var x := LastOf(s, k);
    } else {
      assert s[..0] + [n] + s[0..] == [n] + s;
    }
  }

  lemma RemoveKeepsOrder<K(!new)>(m: Memory<K>, m': Memory<K>, cmp: (K, K) -> int, s: seq<int>, s': seq<int>, n: int,
      k: nat)
    requires Sorted(m, cmp, s) && RemovedAt(s, s', n, k)
    requires forall i :: i in m ==> i in m' && m'[i].v == m[i].v
    ensures Sorted(m', cmp, s')
  {
    assert s == s[..k] + [n] + s[k + 1..];
    SortedRemove(m, cmp, s[..k], n, s[k + 1..]);
    forall i | 0 <= i < |s'| && s'[i] in m ensures s'[i] in m' && m'[s'[i]].v == m[s'[i]].v {
      var x := s'[i]; assert x in m;
    }
    SortedKeep(m, m', cmp, s');
  }

  lemma RemovedSplit(b: seq<int>, l: seq<int>, n: int, r: seq<int>, a: seq<int>)
    ensures RemovedAt(b + (l + [n] + r) + a, b + l + r + a, n, |b| + |l|)
  {
    var s, k := b + (l + [n] + r) + a, |b| + |l|;
    assert s[..k] == b + l && s[k + 1..] == r + a;
    assert (b + l) + (r + a) == b + l + r + a;
  }

  lemma RemovedFrom(ctx: Ctx, t: Tree) returns (k: nat)
    requires t.Node?
    ensures RemovedAt(Elems(Plug(ctx, t)), Before(ctx) + Elems(t.left) + Elems(t.right) + After(ctx), t.id, k)
  {
    hide Plug, Before, After;
    ElemsPlug(ctx, t);
    RemovedSplit(Before(ctx), Elems(t.left), t.id, Elems(t.right), After(ctx));
    k := |Before(ctx)| + |Elems(t.left)|;
  }

  /** In a sequence without repetitions an element has one position. */
  lemma PositionOf(s: seq<int>, a: seq<int>, n: int, b: seq<int>)
    requires NoDuplicates(s) && s == a + [n] + b
    ensures forall i :: 0 <= i < |s| && s[i] == n ==> i == |a|
    ensures |s| == |a| + 1 + |b| && (a != [] ==> s[|a| - 1] == a[|a| - 1]) && (b != [] ==> s[|a| + 1] == b[0])
  {
    assert s[|a|] == n;
  }

  function First(s: seq<int>): int { if s == [] then 0 else s[0] }

  function Last(s: seq<int>): int { if s == [] then 0 else s[|s| - 1] }

  /** The element at a position, null outside. */
  function At(s: seq<int>, i: int): int { if 0 <= i < |s| then s[i] else 0 }

  ghost predicate NextIn(s: seq<int>, n: int, r: int) {
    forall i :: 0 <= i < |s| && s[i] == n ==> r == At(s, i + 1)
  }

  ghost predicate PrevIn(s: seq<int>, n: int, r: int) {
    forall i :: 0 <= i < |s| && s[i] == n ==> r == At(s, i - 1)
  }

  lemma NextAt(s: seq<int>, a: seq<int>, n: int, b: seq<int>)
    requires NoDuplicates(s) && s == a + [n] + b
    ensures NextIn(s, n, First(b)) && PrevIn(s, n, Last(a))
  {
    PositionOf(s, a, n, b);
  }

  /** The predecessor of a node's successor is that node. */
  lemma PrevInvertsNext(s: seq<int>, n: int, r: int)
    requires NoDuplicates(s) && 0 !in s && n in s && NextIn(s, n, r) && r != 0
    ensures r in s && PrevIn(s, r, n)
  {
    var i :| 0 <= i < |s| && s[i] == n;
    assert r == At(s, i + 1);
    forall j | 0 <= j < |s| && s[j] == r ensures n == At(s, j - 1) {
      if j != i + 1 { Apart(s, j, i + 1); }
    }
  }

  lemma Apart(s: seq<int>, i: int, j: int)
    requires NoDuplicates(s) && 0 <= i < |s| && 0 <= j < |s| && i != j
    ensures s[i] != s[j]
  {
  }

  /** The neighbours of a node in a tree. */
  lemma NeighboursAt(ctx: Ctx, t: Tree)
    requires t.Node? && Distinct(Plug(ctx, t))
    ensures NextIn(Elems(Plug(ctx, t)), t.id, First(Elems(t.right) + After(ctx)))
    ensures PrevIn(Elems(Plug(ctx, t)), t.id, Last(Before(ctx) + Elems(t.left)))
  {
    hide Plug, Before, After, Distinct;
    ElemsDistinct(Plug(ctx, t));
    ElemsPlug(ctx, t);
    var a, b := Before(ctx) + Elems(t.left), Elems(t.right) + After(ctx);
    assert Elems(Plug(ctx, t)) == a + [t.id] + b;
    NextAt(Elems(Plug(ctx, t)), a, t.id, b);
  }
}
