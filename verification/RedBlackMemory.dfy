/** Linked nodes in memory, and when they stand for a given tree.

    src/rbtree.h names a node by its `s` field and follows `p`, `left` and `right`
    through RB_GET_NODE. Here memory is a map from node names to records. Name 0 is
    RB_NULL; it is never a key, so that following a null name is an error Dafny
    reports. The stack node `enode` of rbtree_delete lives at the name ENODE while
    that call runs, and keeps `s == RB_NULL` as in the source.
  */
module RedBlackMemory {
  import opened RedBlackShape

  const RB_NULL: int := 0
  const ENODE: int := -1

  datatype NodeRec<K> = NodeRec(s: int, p: int, left: int, right: int, v: K, color: Color)

  type Memory<K> = map<int, NodeRec<K>>

  /** The records of `t`'s nodes say exactly what `t` says, under parent `p`. */
  ghost predicate Rep<K(!new)>(m: Memory<K>, t: Tree, p: int) {
    match t
    case Leaf => true
    case Node(l, n, c, r) =>
      && n > 0 && n in m
      && m[n].s == n && m[n].p == p && m[n].left == Root(l) && m[n].right == Root(r) && m[n].color == c
      && Rep(m, l, n) && Rep(m, r, n)
  }

  /** The same for the path above a subtree whose root is named `child`. */
  ghost predicate RepCtx<K(!new)>(m: Memory<K>, ctx: Ctx, child: int) {
    match ctx
    case Top => true
    case InLeft(up, n, c, r) =>
      && n > 0 && n in m
      && m[n].s == n && m[n].p == Parent(up) && m[n].left == child && m[n].right == Root(r) && m[n].color == c
      && Rep(m, r, n) && RepCtx(m, up, n)
    case InRight(l, n, c, up) =>
      && n > 0 && n in m
      && m[n].s == n && m[n].p == Parent(up) && m[n].left == Root(l) && m[n].right == child && m[n].color == c
      && Rep(m, l, n) && RepCtx(m, up, n)
  }

  lemma {:induction false} RepPlug<K(!new)>(m: Memory<K>, ctx: Ctx, t: Tree)
    ensures Rep(m, Plug(ctx, t), 0) <==> Rep(m, t, Parent(ctx)) && RepCtx(m, ctx, Root(t))
    decreases ctx
  {
    match ctx
    case Top =>
    case InLeft(up, n, c, r) => RepPlug(m, up, Node(t, n, c, r));
    case InRight(l, n, c, up) => RepPlug(m, up, Node(l, n, c, t));
  }

  /** Below a non-trivial path, the root does not depend on the subtree. */
  lemma {:induction false} RootPlug(ctx: Ctx, t: Tree, u: Tree)
    requires ctx.Top? ==> Root(t) == Root(u)
    ensures Root(Plug(ctx, t)) == Root(Plug(ctx, u))
    decreases ctx
  {
    match ctx
    case Top =>
    case InLeft(up, n, c, r) => RootPlug(up, Node(t, n, c, r), Node(u, n, c, r));
    case InRight(l, n, c, up) => RootPlug(up, Node(l, n, c, t), Node(l, n, c, u));
  }

  // ----- frames -----

  ghost predicate SameOn<K(!new)>(m: Memory<K>, m': Memory<K>, ids: set<int>) {
    forall i :: i in ids && i in m ==> i in m' && m'[i] == m[i]
  }

  lemma {:induction false} RepFrame<K(!new)>(m: Memory<K>, m': Memory<K>, t: Tree, p: int)
    requires Rep(m, t, p) && SameOn(m, m', Ids(t))
    ensures Rep(m', t, p)
  {
    match t
    case Leaf =>
    case Node(l, n, c, r) =>
      RepFrame(m, m', l, n);
      RepFrame(m, m', r, n);
  }

  lemma {:induction false} RepCtxFrame<K(!new)>(m: Memory<K>, m': Memory<K>, ctx: Ctx, child: int)
    requires RepCtx(m, ctx, child) && SameOn(m, m', CtxIds(ctx))
    ensures RepCtx(m', ctx, child)
    decreases ctx
  {
    match ctx
    case Top =>
    case InLeft(up, n, c, r) => RepFrame(m, m', r, n); RepCtxFrame(m, m', up, n);
    case InRight(l, n, c, up) => RepFrame(m, m', l, n); RepCtxFrame(m, m', up, n);
  }

  /** A subtree whose root record has only its parent link changed. */
  lemma {:induction false} Reparent<K(!new)>(m: Memory<K>, m': Memory<K>, t: Tree, p: int, q: int)
    requires Rep(m, t, p) && Distinct(t)
    requires t.Node? ==> t.id in m' && m'[t.id] == m[t.id].(p := q) && SameOn(m, m', Ids(t) - {t.id})
    ensures Rep(m', t, q)
  {
    match t
    case Leaf =>
    case Node(l, n, c, r) =>
      RepFrame(m, m', l, n);
      RepFrame(m, m', r, n);
  }

  /** The record of the node the focus hangs under, with its link to the focus changed. */
  function Relink<K(!new)>(rec: NodeRec<K>, ctx: Ctx, child: int): NodeRec<K>
    requires !ctx.Top?
  {
    if ctx.InLeft? then rec.(left := child) else rec.(right := child)
  }

  /** A path whose lowest record has only its link to the focus changed. */
  lemma {:induction false} Rehang<K(!new)>(m: Memory<K>, m': Memory<K>, ctx: Ctx, child: int, child': int)
    requires RepCtx(m, ctx, child) && CtxDistinct(ctx)
    requires !ctx.Top? ==>
      ctx.id in m' && m'[ctx.id] == Relink(m[ctx.id], ctx, child') && SameOn(m, m', CtxIds(ctx) - {ctx.id})
    ensures RepCtx(m', ctx, child')
  {
    match ctx
    case Top =>
    case InLeft(up, n, c, r) => RepFrame(m, m', r, n); RepCtxFrame(m, m', up, n);
    case InRight(l, n, c, up) => RepFrame(m, m', l, n); RepCtxFrame(m, m', up, n);
  }

  /** Every node of a represented tree is a positive name in memory. */
  lemma {:induction false} RepIds<K(!new)>(m: Memory<K>, t: Tree, p: int)
    requires Rep(m, t, p)
    ensures forall i :: i in Ids(t) ==> i > 0 && i in m
  {
    match t
    case Leaf =>
    case Node(l, n, c, r) => RepIds(m, l, n); RepIds(m, r, n);
  }

  lemma {:induction false} RepCtxIds<K(!new)>(m: Memory<K>, ctx: Ctx, child: int)
    requires RepCtx(m, ctx, child)
    ensures forall i :: i in CtxIds(ctx) ==> i > 0 && i in m
    decreases ctx
  {
    match ctx
    case Top =>
    case InLeft(up, n, c, r) => RepIds(m, r, n); RepCtxIds(m, up, n);
    case InRight(l, n, c, up) => RepIds(m, l, n); RepCtxIds(m, up, n);
  }

  /** Links and colours of the nodes in `ids` may have changed; nothing else has. */
  ghost predicate OnlyLinks<K(!new)>(m: Memory<K>, m': Memory<K>, ids: set<int>) {
    && m'.Keys == m.Keys
    && forall i :: i in m ==> m'[i].s == m[i].s && m'[i].v == m[i].v && (i !in ids ==> m'[i] == m[i])
  }

  // ----- rotations -----

  ghost predicate CanRotateLeft(t: Tree) { t.Node? && t.right.Node? }

  ghost predicate CanRotateRight(t: Tree) { t.Node? && t.left.Node? }

  ghost function RotateLeft(t: Tree): Tree
    requires CanRotateLeft(t)
  {
    Node(Node(t.left, t.id, t.color, t.right.left), t.right.id, t.right.color, t.right.right)
  }

  ghost function RotateRight(t: Tree): Tree
    requires CanRotateRight(t)
  {
    Node(t.left.left, t.left.id, t.left.color, Node(t.left.right, t.id, t.color, t.right))
  }

  /** The memory `m'` is `m` with the record of the node above the focus relinked,
      and the subtree's own nodes in `local` changed. */
  ghost predicate Patched<K(!new)>(m: Memory<K>, m': Memory<K>, ctx: Ctx, child: int, local: set<int>) {
    && m'.Keys == m.Keys
    && (!ctx.Top? ==> ctx.id in m && m'[ctx.id] == Relink(m[ctx.id], ctx, child))
    && forall i :: i in m && i !in local && (ctx.Top? || i != ctx.id) ==> m'[i] == m[i]
  }

  /** Hanging another subtree into the same surroundings. */
  lemma Replant<K(!new)>(m: Memory<K>, m': Memory<K>, ctx: Ctx, t: Tree, u: Tree)
    requires Rep(m, Plug(ctx, t), 0) && Distinct(Plug(ctx, t))
    requires Rep(m', u, Parent(ctx)) && Distinct(u) && Ids(u) !! CtxIds(ctx)
    requires !ctx.Top? ==>
      ctx.id in m && ctx.id in m' && m'[ctx.id] == Relink(m[ctx.id], ctx, Root(u))
        && SameOn(m, m', CtxIds(ctx) - {ctx.id})
    ensures Rep(m', Plug(ctx, u), 0) && Distinct(Plug(ctx, u))
    ensures Root(Plug(ctx, u)) == if ctx.Top? then Root(u) else Root(Plug(ctx, t))
    ensures Ids(Plug(ctx, u)) == CtxIds(ctx) + Ids(u)
  {
    DistinctPlug(ctx, t);
    DistinctPlug(ctx, u);
    RepPlug(m, ctx, t);
    Rehang(m, m', ctx, Root(t), Root(u));
    RepPlug(m', ctx, u);
    RootPlug(ctx, if ctx.Top? then u else t, u);
  }

  /** Replacing a subtree: its own nodes are rewritten to stand for `u`, and the record
      above is relinked. */
  lemma ReplaceSubtree<K(!new)>(m: Memory<K>, m': Memory<K>, ctx: Ctx, t: Tree, u: Tree)
    requires Rep(m, Plug(ctx, t), 0) && Distinct(Plug(ctx, t))
    requires Ids(u) <= Ids(t) && Distinct(u)
    requires Patched(m, m', ctx, Root(u), Ids(t))
    requires Rep(m', u, Parent(ctx))
    ensures Rep(m', Plug(ctx, u), 0) && Distinct(Plug(ctx, u))
    ensures Root(Plug(ctx, u)) == if ctx.Top? then Root(u) else Root(Plug(ctx, t))
  {
    DistinctPlug(ctx, t);
    RepPlug(m, ctx, t);
    RepCtxIds(m, ctx, Root(t));
    Replant(m, m', ctx, t, u);
  }

  /** What a rotation that exchanges `n` and `x` and moves `b` between them does to each record. */
  ghost predicate Rotated<K(!new)>(m: Memory<K>, m': Memory<K>, ctx: Ctx, n: int, x: int, b: int) {
    && m'.Keys == m.Keys
    && n in m && x in m && (b != 0 ==> b in m) && (!ctx.Top? ==> ctx.id in m)
    && m'[n].s == m[n].s && m'[n].v == m[n].v && m'[n].color == m[n].color && m'[n].p == x
    && m'[x].s == m[x].s && m'[x].v == m[x].v && m'[x].color == m[x].color && m'[x].p == Parent(ctx)
    && (b != 0 ==> m'[b] == m[b].(p := n))
    && (!ctx.Top? ==> m'[ctx.id] == Relink(m[ctx.id], ctx, x))
    && forall i :: i in m && i != n && i != x && (b == 0 || i != b) && (ctx.Top? || i != ctx.id) ==> m'[i] == m[i]
  }

  /** What a rotation keeps, whichever way it goes. */
  lemma RotatedPlug<K(!new)>(m: Memory<K>, m': Memory<K>, ctx: Ctx, t: Tree, u: Tree, n: int, x: int, b: int)
    requires Rep(m, Plug(ctx, t), 0) && Distinct(Plug(ctx, t))
    requires Rotated(m, m', ctx, n, x, b) && {n, x} <= Ids(t) && (b != 0 ==> b in Ids(t))
    requires Root(u) == x && Distinct(u) && Ids(u) == Ids(t) && Rep(m', u, Parent(ctx))
    ensures Rep(m', Plug(ctx, u), 0) && Distinct(Plug(ctx, u))
    ensures Root(Plug(ctx, u)) == if ctx.Top? then x else Root(Plug(ctx, t))
    ensures OnlyLinks(m, m', Ids(Plug(ctx, t))) && Ids(Plug(ctx, u)) == Ids(Plug(ctx, t))
  {
    DistinctPlug(ctx, t);
    DistinctPlug(ctx, u);
    assert Patched(m, m', ctx, x, Ids(t));
    ReplaceSubtree(m, m', ctx, t, u);
  }

  /** The records a left rotation at `n` reads are there. */
  ghost predicate LeftRotatable<K(!new)>(m: Memory<K>, n: int) {
    && n in m && m[n].s == n
    && m[n].right in m && m[m[n].right].s == m[n].right
    && (m[m[n].right].left != 0 ==> m[m[n].right].left in m)
    && (m[n].p != 0 ==> m[n].p in m && m[m[n].p].s == m[n].p)
  }

  /** rbtree_left_rotate on memory, one assignment a line. */
  ghost function LeftRotated<K(!new)>(m: Memory<K>, n: int): Memory<K>
    requires LeftRotatable(m, n)
  {
    var x := m[n].right;
    var p := m[n].p;
    var m1 := m[n := m[n].(right := m[x].left)];
    var y := m1[n].right;
    var m2 := if y != 0 then m1[y := m1[y].(p := n)] else m1;
    var m3 := m2[n := m2[n].(p := x)];
    var m4 := m3[x := m3[x].(left := n)];
    if p == 0 then m4[x := m4[x].(p := 0)]
    else
      var m5 := if m4[p].left == n then m4[p := m4[p].(left := x)] else m4[p := m4[p].(right := x)];
      m5[x := m5[x].(p := p)]
  }

  lemma LeftRotatableAt<K(!new)>(m: Memory<K>, ctx: Ctx, t: Tree)
    requires CanRotateLeft(t)
    requires Rep(m, Plug(ctx, t), 0)
    ensures LeftRotatable(m, t.id)
    ensures t.id > 0 && t.right.id > 0 && m[t.id].right == t.right.id && m[t.id].p == Parent(ctx) >= 0
    ensures m[t.right.id].left == Root(t.right.left) >= 0
    ensures ctx.Top? <==> Parent(ctx) == 0
  {
    RepPlug(m, ctx, t);
    assert Rep(m, t.right, t.id) && Rep(m, t.right.left, t.right.id);
  }

  lemma LeftRotatedPointwise<K(!new)>(m: Memory<K>, ctx: Ctx, t: Tree)
    requires CanRotateLeft(t)
    requires Rep(m, Plug(ctx, t), 0) && Distinct(Plug(ctx, t)) && LeftRotatable(m, t.id)
    ensures var m', n, x, b := LeftRotated(m, t.id), t.id, t.right.id, Root(t.right.left);
      && Rotated(m, m', ctx, n, x, b)
      && m'[n].left == m[n].left && m'[n].right == b
      && m'[x].left == n && m'[x].right == m[x].right
  {
    var n, x, b := t.id, t.right.id, t.right.left;
    DistinctPlug(ctx, t);
    RepPlug(m, ctx, t);
    assert n != x && n != Root(b) && x != Root(b);
    assert !ctx.Top? ==> Parent(ctx) !in Ids(t) && Parent(ctx) > 0;
    assert !ctx.Top? ==> Parent(ctx) != n && Parent(ctx) != x && Parent(ctx) != Root(b);
    assert ctx.InRight? ==> Root(ctx.sibling) != n;
  }

  lemma LeftRotatedRep<K(!new)>(m: Memory<K>, m': Memory<K>, ctx: Ctx, t: Tree)
    requires CanRotateLeft(t) && Rep(m, t, Parent(ctx)) && Distinct(t)
    requires var n, x, b := t.id, t.right.id, Root(t.right.left);
      && Rotated(m, m', ctx, n, x, b)
      && m'[n].left == m[n].left && m'[n].right == b
      && m'[x].left == n && m'[x].right == m[x].right
    requires ctx.Top? || ctx.id !in Ids(t)
    ensures Rep(m', RotateLeft(t), Parent(ctx))
  {
    var n, x, a, b, d := t.id, t.right.id, t.left, t.right.left, t.right.right;
    RepIds(m, t, Parent(ctx));
    assert SameOn(m, m', Ids(a)) by { assert b.Node? ==> b.id in Ids(b) && b.id !in Ids(a); }
    RepFrame(m, m', a, n);
    Reparent(m, m', b, x, n);
    assert SameOn(m, m', Ids(d)) by { assert b.Node? ==> b.id in Ids(b) && b.id !in Ids(d); }
    RepFrame(m, m', d, x);
  }

  lemma RotateLeftIds(t: Tree)
    requires CanRotateLeft(t) && Distinct(t)
    ensures Distinct(RotateLeft(t)) && Ids(RotateLeft(t)) == Ids(t)
    ensures {t.id, t.right.id} <= Ids(t) && (t.right.left.Node? ==> t.right.left.id in Ids(t))
  {
  }

  lemma RotateLeftElems(ctx: Ctx, t: Tree)
    requires CanRotateLeft(t)
    ensures Elems(Plug(ctx, RotateLeft(t))) == Elems(Plug(ctx, t))
  {
    hide Plug, Before, After;
    ElemsPlug(ctx, t);
    ElemsPlug(ctx, RotateLeft(t));
    var a, b, d := Elems(t.left), Elems(t.right.left), Elems(t.right.right);
    assert (a + [t.id] + b) + [t.right.id] + d == a + [t.id] + (b + [t.right.id] + d);
  }

  /** A left rotation in memory is a left rotation of the tree, in any surroundings. */
  lemma LeftRotatedCorrect<K(!new)>(m: Memory<K>, ctx: Ctx, t: Tree)
    requires CanRotateLeft(t)
    requires Rep(m, Plug(ctx, t), 0) && Distinct(Plug(ctx, t)) && LeftRotatable(m, t.id)
    ensures var m', u := LeftRotated(m, t.id), Plug(ctx, RotateLeft(t));
      && Rep(m', u, 0) && Distinct(u) && Root(u) == (if ctx.Top? then t.right.id else Root(Plug(ctx, t)))
      && OnlyLinks(m, m', Ids(Plug(ctx, t))) && Ids(u) == Ids(Plug(ctx, t)) && Elems(u) == Elems(Plug(ctx, t))
  {
    var m' := LeftRotated(m, t.id);
    LeftRotatedPointwise(m, ctx, t);
    assert Rep(m, t, Parent(ctx)) by { RepPlug(m, ctx, t); }
    assert Distinct(t) && (ctx.Top? || ctx.id !in Ids(t)) by { DistinctPlug(ctx, t); }
    LeftRotatedRep(m, m', ctx, t);
    RotateLeftIds(t);
    RotatedPlug(m, m', ctx, t, RotateLeft(t), t.id, t.right.id, Root(t.right.left));
    RotateLeftElems(ctx, t);
  }

  /** The records a right rotation at `n` reads are there. */
  ghost predicate RightRotatable<K(!new)>(m: Memory<K>, n: int) {
    && n in m && m[n].s == n
    && m[n].left in m && m[m[n].left].s == m[n].left
    && (m[m[n].left].right != 0 ==> m[m[n].left].right in m)
    && (m[n].p != 0 ==> m[n].p in m && m[m[n].p].s == m[n].p)
  }

  /** rbtree_right_rotate on memory, one assignment a line. */
  ghost function RightRotated<K(!new)>(m: Memory<K>, n: int): Memory<K>
    requires RightRotatable(m, n)
  {
    var x := m[n].left;
    var p := m[n].p;
    var m1 := m[n := m[n].(left := m[x].right)];
    var y := m1[n].left;
    var m2 := if y != 0 then m1[y := m1[y].(p := n)] else m1;
    var m3 := m2[n := m2[n].(p := x)];
    var m4 := m3[x := m3[x].(right := n)];
    if p == 0 then m4[x := m4[x].(p := 0)]
    else
      var m5 := if m4[p].left == n then m4[p := m4[p].(left := x)] else m4[p := m4[p].(right := x)];
      m5[x := m5[x].(p := p)]
  }

  lemma RightRotatableAt<K(!new)>(m: Memory<K>, ctx: Ctx, t: Tree)
    requires CanRotateRight(t)
    requires Rep(m, Plug(ctx, t), 0)
    ensures RightRotatable(m, t.id)
    ensures t.id > 0 && t.left.id > 0 && m[t.id].left == t.left.id && m[t.id].p == Parent(ctx) >= 0
    ensures m[t.left.id].right == Root(t.left.right) >= 0
    ensures ctx.Top? <==> Parent(ctx) == 0
  {
    RepPlug(m, ctx, t);
    assert Rep(m, t.left, t.id) && Rep(m, t.left.right, t.left.id);
  }

  lemma RightRotatedPointwise<K(!new)>(m: Memory<K>, ctx: Ctx, t: Tree)
    requires CanRotateRight(t)
    requires Rep(m, Plug(ctx, t), 0) && Distinct(Plug(ctx, t)) && RightRotatable(m, t.id)
    ensures var m', n, x, b := RightRotated(m, t.id), t.id, t.left.id, Root(t.left.right);
      && Rotated(m, m', ctx, n, x, b)
      && m'[n].right == m[n].right && m'[n].left == b
      && m'[x].right == n && m'[x].left == m[x].left
  {
    var n, x, b := t.id, t.left.id, t.left.right;
    DistinctPlug(ctx, t);
    RepPlug(m, ctx, t);
    assert n != x && n != Root(b) && x != Root(b);
    assert !ctx.Top? ==> Parent(ctx) !in Ids(t) && Parent(ctx) > 0;
    assert !ctx.Top? ==> Parent(ctx) != n && Parent(ctx) != x && Parent(ctx) != Root(b);
    assert ctx.InRight? ==> Root(ctx.sibling) != n;
  }

  lemma RightRotatedRep<K(!new)>(m: Memory<K>, m': Memory<K>, ctx: Ctx, t: Tree)
    requires CanRotateRight(t) && Rep(m, t, Parent(ctx)) && Distinct(t)
    requires var n, x, b := t.id, t.left.id, Root(t.left.right);
      && Rotated(m, m', ctx, n, x, b)
      && m'[n].right == m[n].right && m'[n].left == b
      && m'[x].right == n && m'[x].left == m[x].left
    requires ctx.Top? || ctx.id !in Ids(t)
    ensures Rep(m', RotateRight(t), Parent(ctx))
  {
    var n, x, a, b, d := t.id, t.left.id, t.right, t.left.right, t.left.left;
    RepIds(m, t, Parent(ctx));
    assert SameOn(m, m', Ids(a)) by { assert b.Node? ==> b.id in Ids(b) && b.id !in Ids(a); }
    RepFrame(m, m', a, n);
    Reparent(m, m', b, x, n);
    assert SameOn(m, m', Ids(d)) by { assert b.Node? ==> b.id in Ids(b) && b.id !in Ids(d); }
    RepFrame(m, m', d, x);
  }

  lemma RotateRightIds(t: Tree)
    requires CanRotateRight(t) && Distinct(t)
    ensures Distinct(RotateRight(t)) && Ids(RotateRight(t)) == Ids(t)
    ensures {t.id, t.left.id} <= Ids(t) && (t.left.right.Node? ==> t.left.right.id in Ids(t))
  {
  }

  lemma RotateRightElems(ctx: Ctx, t: Tree)
    requires CanRotateRight(t)
    ensures Elems(Plug(ctx, RotateRight(t))) == Elems(Plug(ctx, t))
  {
    hide Plug, Before, After;
    ElemsPlug(ctx, t);
    ElemsPlug(ctx, RotateRight(t));
    var a, b, d := Elems(t.left.left), Elems(t.left.right), Elems(t.right);
    assert (a + [t.left.id] + b) + [t.id] + d == a + [t.left.id] + (b + [t.id] + d);
  }

  /** A right rotation in memory is a right rotation of the tree, in any surroundings. */
  lemma RightRotatedCorrect<K(!new)>(m: Memory<K>, ctx: Ctx, t: Tree)
    requires CanRotateRight(t)
    requires Rep(m, Plug(ctx, t), 0) && Distinct(Plug(ctx, t)) && RightRotatable(m, t.id)
    ensures var m', u := RightRotated(m, t.id), Plug(ctx, RotateRight(t));
      && Rep(m', u, 0) && Distinct(u) && Root(u) == (if ctx.Top? then t.left.id else Root(Plug(ctx, t)))
      && OnlyLinks(m, m', Ids(Plug(ctx, t))) && Ids(u) == Ids(Plug(ctx, t)) && Elems(u) == Elems(Plug(ctx, t))
  {
    var m' := RightRotated(m, t.id);
    RightRotatedPointwise(m, ctx, t);
    assert Rep(m, t, Parent(ctx)) by { RepPlug(m, ctx, t); }
    assert Distinct(t) && (ctx.Top? || ctx.id !in Ids(t)) by { DistinctPlug(ctx, t); }
    RightRotatedRep(m, m', ctx, t);
    RotateRightIds(t);
    RotatedPlug(m, m', ctx, t, RotateRight(t), t.id, t.left.id, Root(t.left.right));
    RotateRightElems(ctx, t);
  }

  // ----- colours -----

  /** Recolouring one record recolours that node of the tree. */
  lemma Recolored<K(!new)>(m: Memory<K>, ctx: Ctx, t: Tree, c: Color)
    requires Rep(m, Plug(ctx, t), 0) && Distinct(Plug(ctx, t)) && t.Node?
    ensures t.id in m
    ensures var m', u := m[t.id := m[t.id].(color := c)], Plug(ctx, t.(color := c));
      && Rep(m', u, 0) && Distinct(u) && Root(u) == Root(Plug(ctx, t))
      && OnlyLinks(m, m', Ids(Plug(ctx, t))) && Ids(u) == Ids(Plug(ctx, t)) && Elems(u) == Elems(Plug(ctx, t))
  {
    RepPlug(m, ctx, t);
    var m', u := m[t.id := m[t.id].(color := c)], t.(color := c);
    DistinctPlug(ctx, t);
    DistinctPlug(ctx, u);
    RepFrame(m, m', t.left, t.id);
    RepFrame(m, m', t.right, t.id);
    RepCtxFrame(m, m', ctx, t.id);
    RepPlug(m', ctx, u);
    RootPlug(ctx, t, u);
    ElemsPlug(ctx, t);
    ElemsPlug(ctx, u);
  }

  // ----- a new leaf -----

  /** Hanging the fresh red node `n` under the lowest node of a path that ends in nothing. */
  lemma Attached<K(!new)>(m: Memory<K>, m': Memory<K>, ctx: Ctx, n: int)
    requires !ctx.Top? && Rep(m, Plug(ctx, Leaf), 0) && Distinct(Plug(ctx, Leaf))
    requires n > 0 && n in m && n !in Ids(Plug(ctx, Leaf))
    requires ctx.id in m && m'.Keys == m.Keys
    requires m'[n] == m[n].(s := n, p := ctx.id, left := 0, right := 0, color := Red)
    requires m'[ctx.id] == Relink(m[ctx.id], ctx, n)
    requires forall i :: i in m && i != n && i != ctx.id ==> m'[i] == m[i]
    ensures var u := Plug(ctx, Node(Leaf, n, Red, Leaf));
      && Rep(m', u, 0) && Distinct(u) && Root(u) == Root(Plug(ctx, Leaf))
      && Ids(u) == Ids(Plug(ctx, Leaf)) + {n} && Elems(u) == Before(ctx) + [n] + After(ctx)
  {
    var t := Node(Leaf, n, Red, Leaf);
    RepPlug(m, ctx, Leaf);
    DistinctPlug(ctx, Leaf);
    assert n !in CtxIds(ctx) && ctx.id in CtxIds(ctx);
    assert Distinct(t) && Ids(t) == {n} && Rep(m', t, ctx.id);
    Replant(m, m', ctx, Leaf, t);
    assert Elems(t) == [n];
    ElemsPlug(ctx, t);
  }

  // ----- taking a node out -----

  /** `y`, which has no child but the root of `x` on one side, is bypassed: `x` hangs where
      `y` hung. An empty `x` is stood for by the stack node, which gets the parent link. */
  lemma Bypassed<K(!new)>(m: Memory<K>, m': Memory<K>, ctx: Ctx, y: Tree, x: Tree)
    requires Rep(m, Plug(ctx, y), 0) && Distinct(Plug(ctx, y))
    requires OnlyChild(y, x)
    requires m'.Keys == m.Keys
    requires x.Node? ==> x.id in m && m'[x.id] == m[x.id].(p := Parent(ctx))
    requires !ctx.Top? ==> ctx.id in m && m'[ctx.id] == Relink(m[ctx.id], ctx, Root(x))
    requires forall i :: i in m && i != ENODE && (x.Leaf? || i != x.id) && (ctx.Top? || i != ctx.id) ==> m'[i] == m[i]
    ensures var u := Plug(ctx, x);
      && Rep(m', u, 0) && Distinct(u) && Root(u) == (if ctx.Top? then Root(x) else Root(Plug(ctx, y)))
      && Ids(u) == Ids(Plug(ctx, y)) - {y.id} && y.id in Ids(Plug(ctx, y))
  {
    assert Rep(m, y, Parent(ctx)) && RepCtx(m, ctx, y.id) by { RepPlug(m, ctx, y); }
    assert Distinct(y) && CtxIds(ctx) !! Ids(y) && Ids(Plug(ctx, y)) == CtxIds(ctx) + Ids(y) by {
      DistinctPlug(ctx, y);
    }
    assert Ids(x) == Ids(y) - {y.id} && Distinct(x) && y.id in Ids(y);
    assert forall i :: i in CtxIds(ctx) ==> i > 0 by { RepCtxIds(m, ctx, y.id); }
    assert forall i :: i in Ids(y) ==> i > 0 by { RepIds(m, y, Parent(ctx)); }
    assert !ctx.Top? ==> ctx.id in CtxIds(ctx);
    assert x.Node? ==> x.id in Ids(x);
    BypassedParts(m, m', ctx, y, x);
    Reparent(m, m', x, y.id, Parent(ctx));
    Replant(m, m', ctx, y, x);
    SetLess(CtxIds(ctx), Ids(y), y.id);
  }

  lemma BypassLinks<K(!new)>(m: Memory<K>, m': Memory<K>, ctx: Ctx, y: Tree, x: Tree)
    requires m'.Keys == m.Keys && OnlyChild(y, x)
    requires x.Node? ==> x.id in m && m'[x.id] == m[x.id].(p := Parent(ctx))
    requires x.Leaf? && ENODE in m ==> m'[ENODE] == m[ENODE].(p := Parent(ctx))
    requires !ctx.Top? ==> ctx.id in m && m'[ctx.id] == Relink(m[ctx.id], ctx, Root(x))
    requires forall i :: i in m && i != ENODE && (x.Leaf? || i != x.id) && (ctx.Top? || i != ctx.id) ==> m'[i] == m[i]
    requires x.Node? && ENODE in m ==> m'[ENODE] == m[ENODE]
    ensures OnlyLinks(m, m', Ids(Plug(ctx, y)) + {ENODE})
  {
    DistinctPlug(ctx, y);
    if x.Node? { assert x.id in Ids(y); }
  }

  lemma BypassedParts<K(!new)>(m: Memory<K>, m': Memory<K>, ctx: Ctx, y: Tree, x: Tree)
    requires y.Node? && m'.Keys == m.Keys && Ids(x) == Ids(y) - {y.id}
    requires forall i :: i in m && i != ENODE && (x.Leaf? || i != x.id) && (ctx.Top? || i != ctx.id) ==> m'[i] == m[i]
    requires CtxIds(ctx) !! Ids(y)
    requires forall i :: i in CtxIds(ctx) ==> i > 0
    requires forall i :: i in Ids(y) ==> i > 0
    requires (!ctx.Top? ==> ctx.id in CtxIds(ctx)) && (x.Node? ==> x.id in Ids(x))
    ensures SameOn(m, m', Ids(x) - {Root(x)}) && SameOn(m, m', CtxIds(ctx) - {Parent(ctx)})
  {
  }

  lemma SetLess(a: set<int>, b: set<int>, x: int)
    requires x !in a
    ensures a + (b - {x}) == a + b - {x}
  {
  }

  lemma SetSwap(a: set<int>, b: set<int>, x: int, y: int)
    requires x !in a && x in b
    ensures a + (b - {x} + {y}) == a + b - {x} + {y}
  {
  }

  lemma SubstitutedHere<K(!new)>(m: Memory<K>, m': Memory<K>, t: Tree, p: int, y: int)
    requires Rep(m, t, p) && Distinct(t) && t.Node?
    requires y > 0 && y in m' && y !in Ids(t)
    requires m'[y].s == y && m'[y].p == p && m'[y].left == Root(t.left) && m'[y].right == Root(t.right)
    requires m'[y].color == t.color
    requires t.left.Node? ==> t.left.id in m && t.left.id in m' && m'[t.left.id] == m[t.left.id].(p := y)
    requires t.right.Node? ==> t.right.id in m && t.right.id in m' && m'[t.right.id] == m[t.right.id].(p := y)
    requires SameOn(m, m', Ids(t.left) - {Root(t.left)}) && SameOn(m, m', Ids(t.right) - {Root(t.right)})
    ensures var u := t.(id := y);
      Rep(m', u, p) && Distinct(u) && Ids(u) == Ids(t) - {t.id} + {y}
  {
    Reparent(m, m', t.left, t.id, y);
    Reparent(m, m', t.right, t.id, y);
  }

  lemma SubstitutedParts<K(!new)>(m: Memory<K>, m': Memory<K>, ctx: Ctx, t: Tree, y: int)
    requires t.Node? && m'.Keys == m.Keys
    requires forall i :: i in m && i !in {ENODE, y, t.id, Root(t.left), Root(t.right), Parent(ctx)} ==> m'[i] == m[i]
    requires CtxIds(ctx) !! Ids(t) && y !in Ids(t) && y !in CtxIds(ctx)
    requires forall i :: i in CtxIds(ctx) ==> i > 0
    requires forall i :: i in Ids(t) ==> i > 0
    requires t.id in Ids(t) && Ids(t.left) <= Ids(t) && Ids(t.right) <= Ids(t) && Ids(t.left) !! Ids(t.right)
    requires t.id !in Ids(t.left) && t.id !in Ids(t.right)
    requires (t.left.Node? ==> Root(t.left) in Ids(t.left)) && (t.right.Node? ==> Root(t.right) in Ids(t.right))
    requires !ctx.Top? ==> Parent(ctx) in CtxIds(ctx)
    ensures SameOn(m, m', Ids(t.left) - {Root(t.left)}) && SameOn(m, m', Ids(t.right) - {Root(t.right)})
    ensures SameOn(m, m', CtxIds(ctx) - {Parent(ctx)})
  {
  }

  /** `y`, a node outside the tree, takes the place, the colour and the links of `z`. */
  lemma Substituted<K(!new)>(m: Memory<K>, m': Memory<K>, ctx: Ctx, t: Tree, y: int)
    requires Rep(m, Plug(ctx, t), 0) && Distinct(Plug(ctx, t)) && t.Node?
    requires y > 0 && y in m && m[y].s == y && y !in Ids(Plug(ctx, t))
    requires m'.Keys == m.Keys
    requires m'[y] == m[y].(p := Parent(ctx), left := Root(t.left), right := Root(t.right), color := t.color)
    requires t.left.Node? ==> t.left.id in m && m'[t.left.id] == m[t.left.id].(p := y)
    requires t.right.Node? ==> t.right.id in m && m'[t.right.id] == m[t.right.id].(p := y)
    requires !ctx.Top? ==> ctx.id in m && m'[ctx.id] == Relink(m[ctx.id], ctx, y)
    requires forall i :: i in m && i !in {ENODE, y, t.id, Root(t.left), Root(t.right), Parent(ctx)} ==> m'[i] == m[i]
    ensures var u := Plug(ctx, t.(id := y));
      && Rep(m', u, 0) && Distinct(u) && Root(u) == (if ctx.Top? then y else Root(Plug(ctx, t)))
      && Ids(u) == Ids(Plug(ctx, t)) - {t.id} + {y} && t.id in Ids(Plug(ctx, t))
  {
    var u := t.(id := y);
    assert Rep(m, t, Parent(ctx)) && RepCtx(m, ctx, t.id) by { RepPlug(m, ctx, t); }
    assert Distinct(t) && CtxIds(ctx) !! Ids(t) && y !in Ids(t) && y !in CtxIds(ctx)
      && Ids(Plug(ctx, t)) == CtxIds(ctx) + Ids(t) by {
      DistinctPlug(ctx, t);
    }
    assert forall i :: i in CtxIds(ctx) ==> i > 0 by { RepCtxIds(m, ctx, t.id); }
    assert forall i :: i in Ids(t) ==> i > 0 by { RepIds(m, t, Parent(ctx)); }
    assert t.id in Ids(t) && Ids(t.left) <= Ids(t) && Ids(t.right) <= Ids(t) && Ids(t.left) !! Ids(t.right);
    assert t.id !in Ids(t.left) && t.id !in Ids(t.right);
    assert t.left.Node? ==> Root(t.left) in Ids(t.left);
    assert t.right.Node? ==> Root(t.right) in Ids(t.right);
    assert !ctx.Top? ==> Parent(ctx) in CtxIds(ctx);
    SubstitutedParts(m, m', ctx, t, y);
    SubstitutedHere(m, m', t, Parent(ctx), y);
    Replant(m, m', ctx, t, u);
    SetSwap(CtxIds(ctx), Ids(t), t.id, y);
  }

  /** The records read when `y` takes the place of `n` are there. */
  ghost predicate Placeable<K(!new)>(m: Memory<K>, y: int, n: int, x: int) {
    && y in m && n in m && x in m
    && m[n].p != y && m[n].left != y && m[n].right != y && m[n].p != n && m[n].left != n && m[n].right != n
    && y != n && x != y && x != n
    && (m[n].p != 0 ==> m[n].p in m) && (m[n].left != 0 ==> m[n].left in m) && (m[n].right != 0 ==> m[n].right in m)
  }

  /** The corresponding assignments of rbtree_delete, one a line. */
  ghost function TookPlace<K(!new)>(m: Memory<K>, y: int, n: int, x: int): Memory<K>
    requires Placeable(m, y, n, x)
  {
    var m1 := if m[y].p == n then m[x := m[x].(p := y)] else m;
    var m2 := m1[y := m1[y].(color := m1[n].color)];
    var p := m2[n].p;
    var m3 := if p == 0 then m2
              else if m2[p].left == n then m2[p := m2[p].(left := y)] else m2[p := m2[p].(right := y)];
    var m4 := m3[y := m3[y].(p := m3[n].p)];
    var m5 := m4[n := m4[n].(p := 0)];
    var l := m5[n].left;
    var m6 := if l != 0 then m5[l := m5[l].(p := y)] else m5;
    var m7 := m6[y := m6[y].(left := m6[n].left)];
    var m8 := m7[n := m7[n].(left := 0)];
    var r := m8[n].right;
    var m9 := if r != 0 then m8[r := m8[r].(p := y)] else m8;
    var m10 := m9[y := m9[y].(right := m9[n].right)];
    m10[n := m10[n].(right := 0)]
  }

  lemma TookPlacePointwise<K(!new)>(m: Memory<K>, y: int, n: int, x: int)
    requires Placeable(m, y, n, x)
    requires m[n].p != 0 ==> m[n].p != x && m[n].p != m[n].left && m[n].p != m[n].right
    requires m[n].left != 0 ==> m[n].left != x && m[n].left != m[n].right
    requires m[y].p == n && m[n].right != 0 ==> x == m[n].right
    ensures var m' := TookPlace(m, y, n, x);
      && m'.Keys == m.Keys
      && m'[y] == m[y].(p := m[n].p, left := m[n].left, right := m[n].right, color := m[n].color)
      && m'[n] == m[n].(p := 0, left := 0, right := 0)
      && (m[n].left != 0 ==> m'[m[n].left] == m[m[n].left].(p := y))
      && (m[n].right != 0 ==> m'[m[n].right] == m[m[n].right].(p := y))
      && (m[n].p != 0 ==> m'[m[n].p] == if m[m[n].p].left == n then m[m[n].p].(left := y) else m[m[n].p].(right := y))
      && (x != m[n].right ==> m'[x] == if m[y].p == n then m[x].(p := y) else m[x])
      && forall i ::
        i in m && i !in {y, n, x} && (m[n].p == 0 || i != m[n].p)
        && (m[n].left == 0 || i != m[n].left) && (m[n].right == 0 || i != m[n].right)
        ==> m'[i] == m[i]
  {
  }

  lemma TookPlaceFrame<K(!new)>(m: Memory<K>, y: int, n: int, x: int, s: set<int>)
    requires Placeable(m, y, n, x) && ENODE in m
    requires m[n].p != 0 ==> m[n].p != x && m[n].p != m[n].left && m[n].p != m[n].right
    requires m[n].left != 0 ==> m[n].left != x && m[n].left != m[n].right
    requires m[y].p == n && m[n].right != 0 ==> x == m[n].right
    requires n in s && x in s && y in s && (m[n].p != 0 ==> m[n].p in s) && (m[n].left != 0 ==> m[n].left in s)
    requires (m[n].right != 0 ==> m[n].right in s)
    requires ENODE != y && ENODE != n && ENODE != m[n].p && ENODE != m[n].left && ENODE != m[n].right
    ensures OnlyLinks(m, TookPlace(m, y, n, x), s)
    ensures TookPlace(m, y, n, x)[ENODE] == if m[y].p == n && x == ENODE then m[ENODE].(p := y) else m[ENODE]
  {
    TookPlacePointwise(m, y, n, x);
  }

  /** What is known about the record above the focus. */
  lemma Above<K(!new)>(m: Memory<K>, ctx: Ctx, t: Tree)
    requires Rep(m, Plug(ctx, t), 0) && Distinct(Plug(ctx, t)) && t.Node?
    ensures ctx.Top? <==> Parent(ctx) == 0
    ensures !ctx.Top? ==> ctx.id > 0 && ctx.id in m && ctx.id !in Ids(t) && ctx.id in Ids(Plug(ctx, t))
    ensures !ctx.Top? ==> (ctx.InLeft? <==> m[ctx.id].left == t.id)
  {
    DistinctPlug(ctx, t);
    RepPlug(m, ctx, t);
    assert t.id in Ids(t);
    if !ctx.Top? && ctx.sibling.Node? { assert ctx.sibling.id in Ids(ctx.sibling); }
  }

  /** What is known about the records of the focus and its children. */
  lemma Below<K(!new)>(m: Memory<K>, ctx: Ctx, t: Tree)
    requires Rep(m, Plug(ctx, t), 0) && Distinct(Plug(ctx, t)) && t.Node?
    ensures var n, l, r := t.id, Root(t.left), Root(t.right);
      && n > 0 && n in m && m[n].s == n && m[n].p == Parent(ctx) && m[n].left == l && m[n].right == r
      && m[n].color == t.color
      && l >= 0 && r >= 0 && l != n && r != n && n in Ids(t) && n in Ids(Plug(ctx, t))
      && (l != 0 ==> l in m && l != r && l in Ids(t) && l in Ids(Plug(ctx, t)) && l !in Ids(t.right))
      && (r != 0 ==> r in m && r in Ids(t) && r in Ids(Plug(ctx, t)))
      && n !in Ids(t.right) && Ids(t.right) <= Ids(t) && Ids(t) <= Ids(Plug(ctx, t))
    ensures forall i :: i in Ids(Plug(ctx, t)) ==> i > 0
  {
    RepIds(m, Plug(ctx, t), 0);
    DistinctPlug(ctx, t);
    RepPlug(m, ctx, t);
    if t.left.Node? { assert t.left.id in Ids(t.left); }
    if t.right.Node? { assert t.right.id in Ids(t.right); }
  }

  lemma PlaceableAt<K(!new)>(m: Memory<K>, ctx: Ctx, t: Tree, y: int, x: int)
    requires Rep(m, Plug(ctx, t), 0) && Distinct(Plug(ctx, t)) && t.Node?
    requires y > 0 && y in m && y !in Ids(Plug(ctx, t))
    requires x in m && (x == ENODE || x in Ids(t.right))
    ensures Placeable(m, y, t.id, x)
    ensures m[t.id].p != 0 ==> m[t.id].p != x && m[t.id].p != m[t.id].left && m[t.id].p != m[t.id].right
    ensures m[t.id].left != 0 ==> m[t.id].left != x && m[t.id].left != m[t.id].right
  {
    Above(m, ctx, t);
    Below(m, ctx, t);
  }

  /** The situation in which rbtree_delete puts `y` in the place of the root of `t`; `x` is
      what was below `y`, so it is the right child itself if `y` was. */
  ghost predicate Placing<K(!new)>(m: Memory<K>, ctx: Ctx, t: Tree, y: int, x: int) {
    && Rep(m, Plug(ctx, t), 0) && Distinct(Plug(ctx, t)) && t.Node?
    && y > 0 && y in m && m[y].s == y && y !in Ids(Plug(ctx, t)) && ENODE in m
    && x in m && (x == ENODE || x in Ids(t.right))
    && (m[y].p == t.id ==> x == if t.right.Leaf? then ENODE else t.right.id)
    && Placeable(m, y, t.id, x)
  }

  lemma TookPlaceLinks<K(!new)>(m: Memory<K>, ctx: Ctx, t: Tree, y: int, x: int)
    requires Placing(m, ctx, t, y, x)
    ensures var m' := TookPlace(m, y, t.id, x);
      && OnlyLinks(m, m', Ids(Plug(ctx, t)) + {y, ENODE})
      && m'[ENODE] == if m[y].p == t.id && x == ENODE then m[ENODE].(p := y) else m[ENODE]
  {
    var s, n := Ids(Plug(ctx, t)) + {y, ENODE}, t.id;
    assert n in s && x in s && (m[n].p != 0 ==> m[n].p in s)
      && (m[n].left != 0 ==> m[n].left in s) && (m[n].right != 0 ==> m[n].right in s)
      && ENODE != y && ENODE != n && ENODE != m[n].p && ENODE != m[n].left && ENODE != m[n].right by {
      Above(m, ctx, t);
      Below(m, ctx, t);
    }
    assert m[y].p == n && m[n].right != 0 ==> x == m[n].right by { Below(m, ctx, t); }
    PlaceableAt(m, ctx, t, y, x);
    TookPlaceFrame(m, y, n, x, s);
  }

  /** Putting `y` in the place of the root of `t` in memory puts it there in the tree. */
  lemma TookPlaceCorrect<K(!new)>(m: Memory<K>, ctx: Ctx, t: Tree, y: int, x: int)
    requires Placing(m, ctx, t, y, x)
    ensures var m', u := TookPlace(m, y, t.id, x), Plug(ctx, t.(id := y));
      && Rep(m', u, 0) && Distinct(u) && Root(u) == (if ctx.Top? then y else Root(Plug(ctx, t)))
      && Ids(u) == Ids(Plug(ctx, t)) - {t.id} + {y}
  {
    PlaceableAt(m, ctx, t, y, x);
    Above(m, ctx, t);
    Below(m, ctx, t);
    TookPlacePointwise(m, y, t.id, x);
    Substituted(m, TookPlace(m, y, t.id, x), ctx, t, y);
  }

  lemma {:induction false} RepInner<K(!new)>(m: Memory<K>, inner: Ctx, t: Tree, p: int)
    requires Rep(m, Plug(inner, t), p)
    ensures Rep(m, t, if inner.Top? then p else inner.id)
    decreases inner
  {
    match inner
    case Top =>
    case InLeft(up, n, c, r) => RepInner(m, up, Node(t, n, c, r), p);
    case InRight(l, n, c, up) => RepInner(m, up, Node(l, n, c, t), p);
  }

  lemma InnerIds(t: Tree, inner: Ctx, u: Tree)
    requires t.Node? && t.right == Plug(inner, u) && Distinct(t)
    ensures u.Node? ==> u.id in Ids(t.right) && u.id != t.id
    ensures !inner.Top? ==> inner.id in Ids(t.right) && inner.id != t.id
  {
    DistinctPlug(inner, u);
    if u.Node? { assert u.id in Ids(u); }
    if !inner.Top? { assert inner.id in CtxIds(inner); }
  }

  /** The replacement node hangs directly under `t` exactly if nothing is between them. */
  lemma InnerParent<K(!new)>(m: Memory<K>, ctx: Ctx, t: Tree, inner: Ctx, yt: Tree)
    requires Rep(m, Plug(ctx, t), 0) && Distinct(Plug(ctx, t)) && t.Node?
    requires t.right == Plug(inner, yt) && yt.Node?
    ensures yt.id > 0 && yt.id in m && m[yt.id].s == yt.id && yt.id in Ids(Plug(ctx, t)) && yt.id != t.id
    ensures m[yt.id].p == t.id <==> inner.Top?
  {
    assert Rep(m, t.right, t.id) by { RepPlug(m, ctx, t); }
    RepInner(m, inner, yt, t.id);
    assert Distinct(t) && Ids(t) <= Ids(Plug(ctx, t)) by { DistinctPlug(ctx, t); }
    InnerIds(t, inner, yt);
  }

  lemma PlacingAt<K(!new)>(m: Memory<K>, ctx: Ctx, t: Tree, y: int, x: int, inner: Ctx, u: Tree)
    requires Rep(m, Plug(ctx, t), 0) && Distinct(Plug(ctx, t)) && t.Node? && t.right == Plug(inner, u)
    requires y > 0 && y in m && m[y].s == y && y !in Ids(Plug(ctx, t)) && ENODE in m
    requires m[y].p == t.id <==> inner.Top?
    requires x == if u.Leaf? then ENODE else u.id
    ensures Placing(m, ctx, t, y, x)
  {
    assert Distinct(t) by { DistinctPlug(ctx, t); }
    InnerIds(t, inner, u);
    if u.Node? { RepIdsIn(m, ctx, t, u.id); }
    PlaceableAt(m, ctx, t, y, x);
  }

  lemma RepIdsIn<K(!new)>(m: Memory<K>, ctx: Ctx, t: Tree, i: int)
    requires Rep(m, Plug(ctx, t), 0) && i in Ids(t)
    ensures i > 0 && i in m
  {
    RepPlug(m, ctx, t);
    RepIds(m, t, Parent(ctx));
  }
}
