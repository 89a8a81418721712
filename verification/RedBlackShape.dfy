/** The pure side of src/rbtree.h: the tree a set of linked nodes stands for, and
    the path from a node up to the root.

    `Tree` is the tree itself; `Ctx` is the rest of the tree around one position (the
    path to the root with the subtrees hanging off it). `Plug` puts a subtree back
    into its surroundings, so "the current node" of a loop in rbtree.h is a split of
    one tree into a `Ctx` and a `Tree`.
  */
module RedBlackShape {
  import opened Basics

  datatype Color = Red | Black

  datatype Tree = Leaf | Node(left: Tree, id: int, color: Color, right: Tree)

  datatype Ctx =
    | Top
    | InLeft(up: Ctx, id: int, color: Color, sibling: Tree)
    | InRight(sibling: Tree, id: int, color: Color, up: Ctx)

  function Plug(ctx: Ctx, t: Tree): Tree {
    match ctx
    case Top => t
    case InLeft(up, n, c, r) => Plug(up, Node(t, n, c, r))
    case InRight(l, n, c, up) => Plug(up, Node(l, n, c, t))
  }

  /** The surroundings `inner`, themselves put inside `outer`. */
  function Append(inner: Ctx, outer: Ctx): Ctx {
    match inner
    case Top => outer
    case InLeft(up, n, c, r) => InLeft(Append(up, outer), n, c, r)
    case InRight(l, n, c, up) => InRight(l, n, c, Append(up, outer))
  }

  lemma {:induction false} PlugAppend(inner: Ctx, outer: Ctx, t: Tree)
    ensures Plug(Append(inner, outer), t) == Plug(outer, Plug(inner, t))
    decreases inner
  {
    match inner
    case Top =>
    case InLeft(up, n, c, r) => PlugAppend(up, outer, Node(t, n, c, r));
    case InRight(l, n, c, up) => PlugAppend(up, outer, Node(l, n, c, t));
  }

  function Root(t: Tree): int {
    if t.Leaf? then 0 else t.id
  }

  /** The node the focus hangs under, 0 at the top. */
  function Parent(ctx: Ctx): int {
    if ctx.Top? then 0 else ctx.id
  }

  /** The subtree one step up from the focus. */
  function Fill(ctx: Ctx, t: Tree): Tree
    requires !ctx.Top?
  {
    if ctx.InLeft? then Node(t, ctx.id, ctx.color, ctx.sibling) else Node(ctx.sibling, ctx.id, ctx.color, t)
  }

  /** The surroundings of the sibling of the focus. */
  function Across(ctx: Ctx, t: Tree): Ctx
    requires !ctx.Top?
  {
    if ctx.InLeft? then InRight(t, ctx.id, ctx.color, ctx.up) else InLeft(ctx.up, ctx.id, ctx.color, t)
  }

  lemma PlugAcross(ctx: Ctx, t: Tree)
    requires !ctx.Top?
    ensures Plug(Across(ctx, t), ctx.sibling) == Plug(ctx, t) == Plug(ctx.up, Fill(ctx, t))
  {
  }

  function Height(t: Tree): nat {
    match t
    case Leaf => 0
    case Node(l, _, _, r) => 1 + if Height(l) > Height(r) then Height(l) else Height(r)
  }

  function Depth(ctx: Ctx): nat {
    match ctx
    case Top => 0
    case InLeft(up, _, _, _) => 1 + Depth(up)
    case InRight(_, _, _, up) => 1 + Depth(up)
  }

  // ----- in-order contents -----

  function Elems(t: Tree): seq<int> {
    match t
    case Leaf => []
    case Node(l, n, _, r) => Elems(l) + [n] + Elems(r)
  }

  function Before(ctx: Ctx): seq<int> {
    match ctx
    case Top => []
    case InLeft(up, _, _, _) => Before(up)
    case InRight(l, n, _, up) => Before(up) + Elems(l) + [n]
  }

  function After(ctx: Ctx): seq<int> {
    match ctx
    case Top => []
    case InLeft(up, n, _, r) => [n] + Elems(r) + After(up)
    case InRight(_, _, _, up) => After(up)
  }

  lemma {:induction false} ElemsPlug(ctx: Ctx, t: Tree)
    ensures Elems(Plug(ctx, t)) == Before(ctx) + Elems(t) + After(ctx)
    decreases ctx
  {
    match ctx
    case Top =>
    case InLeft(up, n, c, r) => ElemsPlug(up, Node(t, n, c, r));
    case InRight(l, n, c, up) => ElemsPlug(up, Node(l, n, c, t));
  }

  // ----- every node occurs once -----

  ghost function Ids(t: Tree): set<int> {
    match t
    case Leaf => {}
    case Node(l, n, _, r) => Ids(l) + {n} + Ids(r)
  }

  ghost function CtxIds(ctx: Ctx): set<int> {
    match ctx
    case Top => {}
    case InLeft(up, n, _, r) => CtxIds(up) + {n} + Ids(r)
    case InRight(l, n, _, up) => CtxIds(up) + {n} + Ids(l)
  }

  ghost predicate Distinct(t: Tree) {
    match t
    case Leaf => true
    case Node(l, n, _, r) =>
      n !in Ids(l) && n !in Ids(r) && Ids(l) !! Ids(r) && Distinct(l) && Distinct(r)
  }

  ghost predicate CtxDistinct(ctx: Ctx) {
    match ctx
    case Top => true
    case InLeft(up, n, _, r) =>
      n !in CtxIds(up) && n !in Ids(r) && CtxIds(up) !! Ids(r) && Distinct(r) && CtxDistinct(up)
    case InRight(l, n, _, up) =>
      n !in CtxIds(up) && n !in Ids(l) && CtxIds(up) !! Ids(l) && Distinct(l) && CtxDistinct(up)
  }

  lemma {:induction false} DistinctPlug(ctx: Ctx, t: Tree)
    ensures Ids(Plug(ctx, t)) == CtxIds(ctx) + Ids(t)
    ensures Distinct(Plug(ctx, t)) <==> Distinct(t) && CtxDistinct(ctx) && Ids(t) !! CtxIds(ctx)
    decreases ctx
  {
    match ctx
    case Top =>
    case InLeft(up, n, c, r) => DistinctPlug(up, Node(t, n, c, r));
    case InRight(l, n, c, up) => DistinctPlug(up, Node(l, n, c, t));
  }

  lemma {:induction false} ElemsIds(t: Tree)
    ensures forall i :: i in Ids(t) <==> i in Elems(t)
  {
    match t
    case Leaf =>
    case Node(l, n, _, r) => ElemsIds(l); ElemsIds(r);
  }

  ghost predicate NoDuplicates(s: seq<int>) {
    forall i, j :: 0 <= i < j < |s| ==> s[i] != s[j]
  }

  lemma {:induction false} ElemsDistinct(t: Tree)
    requires Distinct(t)
    ensures NoDuplicates(Elems(t))
    ensures forall i :: i in Ids(t) <==> i in Elems(t)
  {
    match t
    case Leaf =>
    case Node(l, n, _, r) =>
      ElemsDistinct(l);
      ElemsDistinct(r);
      assert forall i :: 0 <= i < |Elems(l)| ==> Elems(l)[i] in Elems(l);
      assert forall i :: 0 <= i < |Elems(r)| ==> Elems(r)[i] in Elems(r);
  }

  // ----- the red-black rules -----

  function BlackCount(c: Color): nat {
    if c == Black then 1 else 0
  }

  function BlackHeight(t: Tree): nat {
    match t
    case Leaf => 0
    case Node(l, _, c, _) => BlackHeight(l) + BlackCount(c)
  }

  predicate IsRed(t: Tree) {
    t.Node? && t.color == Red
  }

  /** No red node has a red child, and every path down meets equally many black nodes. */
  ghost predicate RedBlack(t: Tree) {
    match t
    case Leaf => true
    case Node(l, _, c, r) =>
      && (c == Red ==> !IsRed(l) && !IsRed(r))
      && BlackHeight(l) == BlackHeight(r)
      && RedBlack(l)
      && RedBlack(r)
  }

  predicate UnderBlack(ctx: Ctx) {
    !ctx.Top? && ctx.color == Black
  }

  /** The rules for the surroundings of a subtree of black height `h`; the topmost
      node of a non-trivial path is black. */
  ghost predicate CtxRedBlack(ctx: Ctx, h: nat) {
    match ctx
    case Top => true
    case InLeft(up, _, c, r) =>
      && (c == Red ==> !IsRed(r) && UnderBlack(up))
      && BlackHeight(r) == h
      && RedBlack(r)
      && CtxRedBlack(up, h + BlackCount(c))
    case InRight(l, _, c, up) =>
      && (c == Red ==> !IsRed(l) && UnderBlack(up))
      && BlackHeight(l) == h
      && RedBlack(l)
      && CtxRedBlack(up, h + BlackCount(c))
  }

  /** A whole tree is legal exactly if both parts of any split of it are, and the
      subtree's root is not a red node under a red node or at the top. */
  lemma {:induction false} RedBlackPlug(ctx: Ctx, t: Tree)
    ensures (RedBlack(Plug(ctx, t)) && !IsRed(Plug(ctx, t)))
      <==> (RedBlack(t) && CtxRedBlack(ctx, BlackHeight(t)) && (IsRed(t) ==> UnderBlack(ctx)))
    decreases ctx
  {
    match ctx
    case Top =>
    case InLeft(up, n, c, r) => RedBlackPlug(up, Node(t, n, c, r));
    case InRight(l, n, c, up) => RedBlackPlug(up, Node(l, n, c, t));
  }

  /** Under a red node: what is known two levels up. */
  lemma RedParent(ctx: Ctx, t: Tree)
    requires !ctx.Top? && ctx.color == Red && RedBlack(t) && CtxRedBlack(ctx, BlackHeight(t))
    ensures UnderBlack(ctx.up) && CtxRedBlack(ctx.up.up, BlackHeight(t) + 1)
    ensures RedBlack(ctx.sibling) && BlackHeight(ctx.sibling) == BlackHeight(t) && !IsRed(ctx.sibling)
    ensures RedBlack(ctx.up.sibling) && BlackHeight(ctx.up.sibling) == BlackHeight(t)
    ensures BlackHeight(Fill(ctx, t)) == BlackHeight(t)
  {
    assert CtxRedBlack(ctx.up, BlackHeight(t));
  }

  function Blacken(t: Tree): Tree {
    if t.Leaf? then t else t.(color := Black)
  }

  /** A legal tree is at most twice as deep as its black height. */
  lemma {:induction false} HeightBound(t: Tree)
    requires RedBlack(t)
    ensures Height(t) <= 2 * BlackHeight(t) + (if IsRed(t) then 1 else 0)
  {
    match t
    case Leaf =>
    case Node(l, _, _, r) => HeightBound(l); HeightBound(r);
  }

  /** Black height h needs at least 2^h - 1 nodes. */
  lemma {:induction false} SizeBound(t: Tree)
    requires RedBlack(t)
    ensures |Elems(t)| + 1 >= Pow2(BlackHeight(t))
  {
    match t
    case Leaf =>
    case Node(l, _, c, r) => SizeBound(l); SizeBound(r);
  }

  lemma {:induction false} DepthBound(ctx: Ctx, t: Tree)
    ensures Depth(ctx) + Height(t) <= Height(Plug(ctx, t))
  {
    if !ctx.Top? { DepthBound(ctx.up, Fill(ctx, t)); }
  }

  lemma {:induction false} DepthAppend(inner: Ctx, outer: Ctx)
    ensures Depth(Append(inner, outer)) == Depth(inner) + Depth(outer)
    decreases inner
  {
    if !inner.Top? { DepthAppend(inner.up, outer); }
  }

  /** The place below a node with two children from which its successor was taken. */
  lemma InnerDepth(ctx: Ctx, t: Tree, inner: Ctx, u: Tree, y: int)
    requires t.Node? && t.right == Plug(inner, u) && u.Node?
    ensures Depth(Append(inner, InRight(t.left, y, t.color, ctx))) < Height(Plug(ctx, t))
  {
    DepthBound(ctx, t);
    DepthBound(inner, u);
    DepthAppend(inner, InRight(t.left, y, t.color, ctx));
  }

  /** `rounds` is at most 2 * log2(n + 1). */
  ghost predicate LogMany(rounds: nat, n: nat) {
    Pow2(rounds) <= (n + 1) * (n + 1)
  }

  /** A red-black tree of n nodes has at most 2 * log2(n + 1) levels. */
  lemma Logarithmic(t: Tree, rounds: nat)
    requires RedBlack(t) && !IsRed(t) && rounds <= Height(t)
    ensures LogMany(rounds, |Elems(t)|)
  {
    var h, n := BlackHeight(t), |Elems(t)| + 1;
    HeightBound(t);
    SizeBound(t);
    Pow2Sum(rounds, 2 * h - rounds);
    Pow2Sum(h, h);
    Squares(Pow2(h), n);
  }

  lemma Squares(a: nat, b: nat)
    requires a <= b
    ensures a * a <= b * b
  {
    assert b * b == a * a + (b - a) * (a + b);
  }

  // ----- the steps of the insertion repair on trees -----

  /** After the rotations: the parent black over the red focus, the grandparent red beside it. */
  lemma RotatedLeftRedBlack(up: Ctx, pt: Tree, pp: int, unc: Tree)
    requires pt.Node? && RedBlack(pt.right) && RedBlack(unc) && !IsRed(unc) && !IsRed(pt.right)
    requires BlackHeight(pt.left) == BlackHeight(pt.right) == BlackHeight(unc)
    requires CtxRedBlack(up, BlackHeight(unc) + 1)
    ensures CtxRedBlack(InLeft(up, pt.id, Black, Node(pt.right, pp, Red, unc)), BlackHeight(pt.left))
  {
  }

  lemma RotatedRightRedBlack(up: Ctx, pt: Tree, pp: int, unc: Tree)
    requires pt.Node? && RedBlack(pt.left) && RedBlack(unc) && !IsRed(unc) && !IsRed(pt.left)
    requires BlackHeight(pt.left) == BlackHeight(pt.right) == BlackHeight(unc)
    requires CtxRedBlack(up, BlackHeight(unc) + 1)
    ensures CtxRedBlack(InRight(Node(unc, pp, Red, pt.left), pt.id, Black, up), BlackHeight(pt.right))
  {
  }

  /** The grandparent after its two children have given it their red colour. */
  function Recoloured(ctx: Ctx, t: Tree): Tree
    requires !ctx.Top? && !ctx.up.Top?
  {
    var pp := Fill(ctx.up.(sibling := Blacken(ctx.up.sibling)), Blacken(Fill(ctx, t)));
    Node(pp.left, pp.id, Red, pp.right)
  }

  lemma RecolouredRedBlack(ctx: Ctx, t: Tree)
    requires IsRed(t) && RedBlack(t) && CtxRedBlack(ctx, BlackHeight(t))
    requires !ctx.Top? && ctx.color == Red
    ensures UnderBlack(ctx.up)
    ensures IsRed(ctx.up.sibling) ==>
      && RedBlack(Recoloured(ctx, t)) && CtxRedBlack(ctx.up.up, BlackHeight(Recoloured(ctx, t)))
  {
    RedParent(ctx, t);
    if IsRed(ctx.up.sibling) {
      var a, b := Blacken(Fill(ctx, t)), Blacken(ctx.up.sibling);
      assert RedBlack(a) && BlackHeight(a) == BlackHeight(t) + 1;
      assert RedBlack(b) && BlackHeight(b) == BlackHeight(t) + 1;
    }
  }

  // ----- the steps of the deletion repair on trees -----

  /** A node seen from one side: `near` is its left subtree if `left`, its right one otherwise. */
  function Sided(left: bool, near: Tree, id: int, c: Color, far: Tree): Tree {
    if left then Node(near, id, c, far) else Node(far, id, c, near)
  }

  function Hang(left: bool, up: Ctx, id: int, c: Color, sibling: Tree): Ctx {
    if left then InLeft(up, id, c, sibling) else InRight(sibling, id, c, up)
  }

  function Near(left: bool, t: Tree): Tree
    requires t.Node?
  { if left then t.left else t.right }

  function Far(left: bool, t: Tree): Tree
    requires t.Node?
  { if left then t.right else t.left }

  /** The subtree `t` is one black node short of what its surroundings need; a red root
      may hang anywhere, since it is about to become black. */
  ghost predicate OneShort(ctx: Ctx, t: Tree) {
    RedBlack(Blacken(t)) && CtxRedBlack(ctx, BlackHeight(t) + 1)
  }

  lemma BlackenRedBlack(t: Tree)
    requires RedBlack(t)
    ensures RedBlack(Blacken(t)) && BlackHeight(Blacken(t)) == BlackHeight(t) + if IsRed(t) then 1 else 0
  {
  }

  predicate OnlyChild(y: Tree, x: Tree) {
    y.Node? && ((y.left.Leaf? && y.right == x) || (y.right.Leaf? && y.left == x))
  }

  /** A node with at most one child has only a red leaf or nothing below it. */
  lemma BypassHeight(y: Tree, x: Tree)
    requires RedBlack(y) && OnlyChild(y, x)
    ensures RedBlack(x) && BlackHeight(x) == 0 && BlackHeight(y) == BlackCount(y.color)
    ensures y.color == Red ==> x.Leaf?
  {
    assert BlackHeight(Leaf) == 0;
    if x.Node? { assert BlackHeight(x.left) >= 0; }
  }

  /** Bypassing such a node: one black node is missing if it was black, nothing if it was red. */
  lemma BypassBlack(ctx: Ctx, y: Tree, x: Tree)
    requires RedBlack(y) && CtxRedBlack(ctx, BlackHeight(y)) && OnlyChild(y, x) && y.color == Black
    ensures OneShort(ctx, x)
  {
    BypassHeight(y, x);
    BlackenRedBlack(x);
  }

  lemma BypassRed(ctx: Ctx, y: Tree, x: Tree)
    requires RedBlack(y) && CtxRedBlack(ctx, BlackHeight(y)) && OnlyChild(y, x) && y.color == Red
    ensures x.Leaf? && CtxRedBlack(ctx, BlackHeight(x))
  {
    BypassHeight(y, x);
  }

  /** The rules do not mention names. */
  lemma {:induction false} CtxRename(inner: Ctx, l: Tree, z: int, y: int, c: Color, up: Ctx, h: nat)
    ensures CtxRedBlack(Append(inner, InRight(l, z, c, up)), h) <==> CtxRedBlack(Append(inner, InRight(l, y, c, up)), h)
    ensures UnderBlack(Append(inner, InRight(l, z, c, up))) <==> UnderBlack(Append(inner, InRight(l, y, c, up)))
    decreases inner
  {
    match inner
    case Top =>
    case InLeft(iup, _, ic, _) => CtxRename(iup, l, z, y, c, up, h + BlackCount(ic));
    case InRight(_, _, ic, iup) => CtxRename(iup, l, z, y, c, up, h + BlackCount(ic));
  }

  /** A node with nothing before it is the first; bypassing it drops the first element. */
  lemma FirstElems(inner: Ctx, y: Tree)
    requires y.Node? && y.left.Leaf? && Before(inner) == []
    ensures Elems(Plug(inner, y)) == [y.id] + Elems(Plug(inner, y.right))
  {
    ElemsPlug(inner, y);
    ElemsPlug(inner, y.right);
    assert Elems(y) == [y.id] + Elems(y.right);
  }

  /** Moving the first node of the right subtree to the top leaves the order as it was, without the old top. */
  lemma MovedInElems(ctx: Ctx, l: Tree, c: Color, inner: Ctx, y: Tree)
    requires y.Node? && y.left.Leaf? && Before(inner) == []
    ensures Elems(Plug(ctx, Node(l, y.id, c, Plug(inner, y.right))))
      == Before(ctx) + Elems(l) + Elems(Plug(inner, y)) + After(ctx)
  {
    FirstElems(inner, y);
    ElemsAround(ctx, l, y.id, c, Plug(inner, y.right));
  }

  lemma ElemsAround(ctx: Ctx, l: Tree, n: int, c: Color, r: Tree)
    ensures Elems(Plug(ctx, Node(l, n, c, r))) == Before(ctx) + Elems(l) + ([n] + Elems(r)) + After(ctx)
  {
    ElemsPlug(ctx, Node(l, n, c, r));
    assert Elems(l) + [n] + Elems(r) == Elems(l) + ([n] + Elems(r));
    assert Before(ctx) + (Elems(l) + ([n] + Elems(r))) == Before(ctx) + Elems(l) + ([n] + Elems(r));
  }

  lemma SameRules(ctx: Ctx, t: Tree, u: Tree)
    requires t.Node? && u.Node? && u.left == t.left && u.right == t.right && u.color == t.color
    requires RedBlack(Plug(ctx, t)) && !IsRed(Plug(ctx, t))
    ensures RedBlack(Plug(ctx, u)) && !IsRed(Plug(ctx, u))
  {
    RedBlackPlug(ctx, t);
    RedBlackPlug(ctx, u);
  }

  lemma {:induction false} ParentAppend(inner: Ctx, outer: Ctx)
    ensures Parent(Append(inner, outer)) == if inner.Top? then Parent(outer) else Parent(inner)
  {
  }

  /** Where a node is in a tree. */
  lemma {:induction false} Locate(ctx: Ctx, t: Tree, n: int) returns (c: Ctx, u: Tree)
    requires n in Ids(t)
    ensures Plug(c, u) == Plug(ctx, t) && u.Node? && u.id == n
    decreases t
  {
    if n == t.id {
      c, u := ctx, t;
    } else if n in Ids(t.left) {
      c, u := Locate(InLeft(ctx, t.id, t.color, t.right), t.left, n);
    } else {
      c, u := Locate(InRight(t.left, t.id, t.color, ctx), t.right, n);
    }
  }

  lemma ShortSibling(ctx: Ctx, t: Tree)
    requires OneShort(ctx, t) && !ctx.Top?
    ensures ctx.sibling.Node? && RedBlack(ctx.sibling) && BlackHeight(ctx.sibling) == BlackHeight(t) + 1
  {
  }

  lemma ShortRedSibling(left: bool, up: Ctx, p: int, c: Color, t: Tree, w: Tree)
    requires OneShort(Hang(left, up, p, c, w), t) && IsRed(w)
    ensures c == Black
    ensures var ctx' := Hang(left, Hang(left, up, w.id, Black, Far(left, w)), p, Red, Near(left, w));
      OneShort(ctx', t) && !IsRed(Near(left, w))
  {
  }

  /** Both nephews black: the shortage moves up to the parent. */
  lemma ShortMovesUp(left: bool, up: Ctx, p: int, c: Color, t: Tree, w: Tree)
    requires OneShort(Hang(left, up, p, c, w), t) && !IsRed(t) && w.Node? && !IsRed(w)
    requires !IsRed(w.left) && !IsRed(w.right)
    ensures OneShort(up, Sided(left, t, p, c, w.(color := Red)))
  {
    var w' := w.(color := Red);
    assert RedBlack(w') && BlackHeight(w') == BlackHeight(t);
  }

  /** The far nephew red: one rotation ends the shortage. */
  lemma ShortRepaired(left: bool, up: Ctx, p: int, c: Color, t: Tree, w: Tree)
    requires OneShort(Hang(left, up, p, c, w), t) && !IsRed(t) && w.Node? && !IsRed(w) && IsRed(Far(left, w))
    ensures var u := Sided(left, Sided(left, t, p, Black, Near(left, w)), w.id, c, Blacken(Far(left, w)));
      RedBlack(Plug(up, u)) && !IsRed(Plug(up, u))
  {
    var n, f := Near(left, w), Far(left, w);
    var u := Sided(left, Sided(left, t, p, Black, n), w.id, c, Blacken(f));
    assert BlackHeight(n) == BlackHeight(f) == BlackHeight(t);
    assert RedBlack(n) && RedBlack(f);
    BlackenRedBlack(f);
    assert RedBlack(Sided(left, t, p, Black, n));
    assert RedBlack(u) && BlackHeight(u) == BlackHeight(t) + 1 + BlackCount(c);
    RedBlackPlug(up, u);
  }

  /** The near nephew red, the far one black: rotating the sibling makes the far one red. */
  lemma ShortTurned(left: bool, up: Ctx, p: int, c: Color, t: Tree, w: Tree)
    requires OneShort(Hang(left, up, p, c, w), t) && w.Node? && !IsRed(w)
    requires IsRed(Near(left, w)) && !IsRed(Far(left, w))
    ensures var n := Near(left, w);
      var w' := Sided(left, Near(left, n), n.id, Black, Sided(left, Far(left, n), w.id, Red, Far(left, w)));
      OneShort(Hang(left, up, p, c, w'), t) && IsRed(Far(left, w'))
  {
    var ctx := Hang(left, up, p, c, w);
    ShortSibling(ctx, t);
    TurnedSibling(left, w);
    var n := Near(left, w);
    var w' := Sided(left, Near(left, n), n.id, Black, Sided(left, Far(left, n), w.id, Red, Far(left, w)));
    if left { OtherSibling(ctx, w', BlackHeight(t) + 1); } else { OtherSibling(ctx, w', BlackHeight(t) + 1); }
  }

  lemma TurnedSibling(left: bool, w: Tree)
    requires w.Node? && !IsRed(w) && RedBlack(w) && IsRed(Near(left, w)) && !IsRed(Far(left, w))
    ensures var n := Near(left, w);
      var w' := Sided(left, Near(left, n), n.id, Black, Sided(left, Far(left, n), w.id, Red, Far(left, w)));
      RedBlack(w') && BlackHeight(w') == BlackHeight(w) && !IsRed(w') && IsRed(Far(left, w'))
  {
    if left { } else { }
  }

  /** Another black sibling of the same black height. */
  lemma OtherSibling(ctx: Ctx, w: Tree, h: nat)
    requires !ctx.Top? && CtxRedBlack(ctx, h) && RedBlack(w) && BlackHeight(w) == BlackHeight(ctx.sibling) && !IsRed(w)
    ensures CtxRedBlack(ctx.(sibling := w), h)
  {
  }
}
