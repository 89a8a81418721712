/** The operations of src/rbtree.h on linked nodes, assignment by assignment. An `RBTree` has the links as
    its fields and, as a ghost, the tree they stand for; every operation says what it makes of the in-order
    sequence of that tree, under any comparator, and keeps the red-black rules. */
module RedBlackTree {
  import opened RedBlackShape
  import opened RedBlackMemory
  import opened KeyOrder
  import opened RedBlackSearch

  class RBTree<K(!new)> {
    var root: int
    var size: nat
    var nodes: Memory<K>
    ghost var tree: Tree
    const cmp: (K, K) -> int

    /** The links stand for the ghost tree. */
    ghost predicate Shape()
      reads this
    {
      && root == Root(tree)
      && Rep(nodes, tree, 0)
      && Distinct(tree)
    }

    ghost predicate Valid()
      reads this
    {
      && Shape()
      && RedBlack(tree) && !IsRed(tree)
      && size == |Elems(tree)|
      && ENODE !in nodes
    }

    function GetNode(p: int): (n: int)
      requires p > 0
    { p }

    /** The same nodes in the same order as `t`; nothing but their links and colours
        has changed since memory was `m`. */
    ghost predicate Relinked(m: Memory<K>, t: Tree)
      reads this
    {
      && OnlyLinks(m, nodes, Ids(t))
      && Ids(tree) == Ids(t)
      && Elems(tree) == Elems(t)
    }

    method LeftRotate(node: int, ghost ctx: Ctx, ghost t: Tree)
      requires Shape() && tree == Plug(ctx, t)
      requires CanRotateLeft(t) && t.id == node
      modifies this`root, this`nodes, this`tree
      ensures Shape() && tree == Plug(ctx, RotateLeft(t))
      ensures Relinked(old(nodes), old(tree))
    {
      LeftRotatableAt(nodes, ctx, t);
      LeftRotatedCorrect(nodes, ctx, t);
      var m := nodes;
      var x := GetNode(m[node].right);
      var p := m[node].p;

      m := m[node := m[node].(right := m[x].left)];
      if m[node].right != RB_NULL {
        var y := GetNode(m[node].right);
        m := m[y := m[y].(p := m[node].s)];
      }
      m := m[node := m[node].(p := m[x].s)];
      m := m[x := m[x].(left := m[node].s)];
      if p == RB_NULL {
        root := m[x].s;
        m := m[x := m[x].(p := RB_NULL)];
      } else {
        if m[p].left == m[node].s {
          m := m[p := m[p].(left := m[x].s)];
        } else {
          m := m[p := m[p].(right := m[x].s)];
        }
        m := m[x := m[x].(p := m[p].s)];
      }
      assert m == LeftRotated(nodes, node);
      nodes := m;
      tree := Plug(ctx, RotateLeft(t));
    }

    method RightRotate(node: int, ghost ctx: Ctx, ghost t: Tree)
      requires Shape() && tree == Plug(ctx, t)
      requires CanRotateRight(t) && t.id == node
      modifies this`root, this`nodes, this`tree
      ensures Shape() && tree == Plug(ctx, RotateRight(t))
      ensures Relinked(old(nodes), old(tree))
    {
      RightRotatableAt(nodes, ctx, t);
      RightRotatedCorrect(nodes, ctx, t);
      var m := nodes;
      var x := GetNode(m[node].left);
      var p := m[node].p;

      m := m[node := m[node].(left := m[x].right)];
      if m[node].left != RB_NULL {
        var y := GetNode(m[node].left);
        m := m[y := m[y].(p := m[node].s)];
      }
      m := m[node := m[node].(p := m[x].s)];
      m := m[x := m[x].(right := m[node].s)];
      if p == RB_NULL {
        root := m[x].s;
        m := m[x := m[x].(p := RB_NULL)];
      } else {
        if m[p].left == m[node].s {
          m := m[p := m[p].(left := m[x].s)];
        } else {
          m := m[p := m[p].(right := m[x].s)];
        }
        m := m[x := m[x].(p := m[p].s)];
      }
      assert m == RightRotated(nodes, node);
      nodes := m;
      tree := Plug(ctx, RotateRight(t));
    }

    method SetColor(n: int, c: Color, ghost ctx: Ctx, ghost t: Tree)
      requires Shape() && tree == Plug(ctx, t) && t.Node? && t.id == n
      modifies this`nodes, this`tree
      ensures Shape() && tree == Plug(ctx, t.(color := c))
      ensures Relinked(old(nodes), old(tree))
    {
      Recolored(nodes, ctx, t, c);
      nodes := nodes[n := nodes[n].(color := c)];
      tree := Plug(ctx, t.(color := c));
    }

    /** What the records around the current node say. */
    lemma Here(ctx: Ctx, t: Tree)
      requires Shape() && tree == Plug(ctx, t)
      ensures Rep(nodes, t, Parent(ctx)) && RepCtx(nodes, ctx, Root(t))
      ensures Distinct(t) && (!ctx.Top? ==> ctx.id > 0 && ctx.id !in Ids(t) && Root(ctx.sibling) >= 0)
      ensures t.Node? ==> t.id > 0 && t.id != Root(if ctx.Top? then Leaf else ctx.sibling)
    {
      RepPlug(nodes, ctx, t);
      DistinctPlug(ctx, t);
    }

    // ----- insertion -----

    /** The tree is legal but for the red node `t`, which may hang under a red node or be the root. */
    ghost predicate RedFocus(ctx: Ctx, t: Tree)
      reads this
    {
      && Shape() && tree == Plug(ctx, t)
      && IsRed(t) && RedBlack(t) && CtxRedBlack(ctx, BlackHeight(t))
    }

    /** The uncle is red: the grandparent takes the red colour from its children. */
    method RecolorUncle(p: int, pp: int, uncle: int, ghost ctx: Ctx, ghost t: Tree)
      requires RedFocus(ctx, t)
      requires !ctx.Top? && ctx.id == p && ctx.color == Red && !ctx.up.Top? && ctx.up.id == pp
      requires IsRed(ctx.up.sibling) && ctx.up.sibling.id == uncle
      modifies this`nodes, this`tree
      ensures RedFocus(ctx.up.up, Recoloured(ctx, t))
      ensures Relinked(old(nodes), old(tree))
    {
      RecolouredRedBlack(ctx, t);
      ghost var up, mid := ctx.up.up, ctx.up;
      ghost var pt, unc := Fill(ctx, t), ctx.up.sibling;
      PlugAcross(mid, pt);
      SetColor(uncle, Black, Across(mid, pt), unc);
      ghost var mid' := mid.(sibling := Blacken(unc));
      PlugAcross(mid', pt);
      SetColor(p, Black, mid', pt);
      SetColor(pp, Red, up, Fill(mid', Blacken(pt)));
    }

    /** The uncle is black and the red focus is on the outside: the grandparent goes down
        on the uncle's side. */
    method RotateGrandparentRight(p: int, pp: int, ghost up: Ctx, ghost pt: Tree, ghost unc: Tree)
      requires Shape() && tree == Plug(up, Node(pt, pp, Black, unc))
      requires pt.Node? && pt.id == p
      modifies this`root, this`nodes, this`tree
      ensures Shape() && tree == Plug(InLeft(up, p, Black, Node(pt.right, pp, Red, unc)), pt.left)
      ensures Relinked(old(nodes), old(tree))
    {
      SetColor(p, Black, InLeft(up, pp, Black, unc), pt);
      ghost var pt' := pt.(color := Black);
      SetColor(pp, Red, up, Node(pt', pp, Black, unc));
      RightRotate(pp, up, Node(pt', pp, Red, unc));
    }

    method InsertStepLeft(node: int, p: int, pp: int, ghost ctx: Ctx, ghost t: Tree)
      returns (node': int, ghost ctx': Ctx, ghost t': Tree)
      requires RedFocus(ctx, t) && t.id == node
      requires !ctx.Top? && ctx.id == p && ctx.color == Red && ctx.up.InLeft? && ctx.up.id == pp
      modifies this`root, this`nodes, this`tree
      ensures RedFocus(ctx', t') && t'.id == node' && Depth(ctx') < Depth(ctx)
      ensures Relinked(old(nodes), old(tree))
    {
      hide Distinct, Elems, Height;
      ghost var up, unc := ctx.up.up, ctx.up.sibling;
      ghost var pt := Fill(ctx, t);
      RedParent(ctx, t);
      Here(ctx, t);
      assert RepCtx(nodes, ctx.up, p);
      var uncle := nodes[pp].right;
      if uncle != RB_NULL && nodes[GetNode(uncle)].color == Red {
        RecolorUncle(p, pp, uncle, ctx, t);
        node', ctx', t' := pp, up, Recoloured(ctx, t);
      } else {
        var n1, p1 := node, p;
        if node == nodes[p].right {
          LeftRotate(p, ctx.up, pt);
          pt := RotateLeft(pt);
          n1, p1 := p, node;
        }
        RotatedLeftRedBlack(up, pt, pp, unc);
        RotateGrandparentRight(p1, pp, up, pt, unc);
        node', ctx', t' := n1, InLeft(up, p1, Black, Node(pt.right, pp, Red, unc)), pt.left;
      }
    }

    /** The uncle is black and the red focus is on the outside: the grandparent goes down
        on the uncle's side. */
    method RotateGrandparentLeft(p: int, pp: int, ghost up: Ctx, ghost pt: Tree, ghost unc: Tree)
      requires Shape() && tree == Plug(up, Node(unc, pp, Black, pt))
      requires pt.Node? && pt.id == p
      modifies this`root, this`nodes, this`tree
      ensures Shape() && tree == Plug(InRight(Node(unc, pp, Red, pt.left), p, Black, up), pt.right)
      ensures Relinked(old(nodes), old(tree))
    {
      SetColor(p, Black, InRight(unc, pp, Black, up), pt);
      ghost var pt' := pt.(color := Black);
      SetColor(pp, Red, up, Node(unc, pp, Black, pt'));
      LeftRotate(pp, up, Node(unc, pp, Red, pt'));
    }

    method InsertStepRight(node: int, p: int, pp: int, ghost ctx: Ctx, ghost t: Tree)
      returns (node': int, ghost ctx': Ctx, ghost t': Tree)
      requires RedFocus(ctx, t) && t.id == node
      requires !ctx.Top? && ctx.id == p && ctx.color == Red && ctx.up.InRight? && ctx.up.id == pp
      modifies this`root, this`nodes, this`tree
      ensures RedFocus(ctx', t') && t'.id == node' && Depth(ctx') < Depth(ctx)
      ensures Relinked(old(nodes), old(tree))
    {
      hide Distinct, Elems, Height;
      ghost var up, unc := ctx.up.up, ctx.up.sibling;
      ghost var pt := Fill(ctx, t);
      RedParent(ctx, t);
      Here(ctx, t);
      assert RepCtx(nodes, ctx.up, p);
      var uncle := nodes[pp].left;
      if uncle != RB_NULL && nodes[GetNode(uncle)].color == Red {
        RecolorUncle(p, pp, uncle, ctx, t);
        node', ctx', t' := pp, up, Recoloured(ctx, t);
      } else {
        var n1, p1 := node, p;
        if node == nodes[p].left {
          RightRotate(p, ctx.up, pt);
          pt := RotateRight(pt);
          n1, p1 := p, node;
        }
        RotatedRightRedBlack(up, pt, pp, unc);
        RotateGrandparentLeft(p1, pp, up, pt, unc);
        node', ctx', t' := n1, InRight(Node(unc, pp, Red, pt.left), p1, Black, up), pt.right;
      }
    }

    method InsertStep(node: int, p: int, ghost ctx: Ctx, ghost t: Tree)
      returns (node': int, ghost ctx': Ctx, ghost t': Tree)
      requires RedFocus(ctx, t) && t.id == node
      requires !ctx.Top? && ctx.id == p && ctx.color == Red
      modifies this`root, this`nodes, this`tree
      ensures RedFocus(ctx', t') && t'.id == node' && Depth(ctx') < Depth(ctx)
      ensures Relinked(old(nodes), old(tree))
    {
      RedParent(ctx, t);
      Here(ctx.up, Fill(ctx, t));
      var pp := GetNode(nodes[p].p);
      if p == nodes[pp].left {
        node', ctx', t' := InsertStepLeft(node, p, pp, ctx, t);
      } else {
        node', ctx', t' := InsertStepRight(node, p, pp, ctx, t);
      }
    }

    /** The focus and the node above it, as the loops read them. */
    ghost predicate Seen(ctx: Ctx, t: Tree)
      reads this
    {
      && t.Node? && t.id in nodes && nodes[t.id].p == Parent(ctx) && nodes[t.id].color == t.color
      && (ctx.Top? <==> Parent(ctx) == RB_NULL)
      && (!ctx.Top? ==> ctx.id > 0 && ctx.id in nodes && nodes[ctx.id].color == ctx.color)
    }

    lemma Look(ctx: Ctx, t: Tree)
      requires Shape() && tree == Plug(ctx, t) && t.Node?
      ensures Seen(ctx, t)
    {
      RepPlug(nodes, ctx, t);
    }

    /** rbtree_fix_insert; every round is at a higher node. */
    method FixInsert(n: int, ghost c: Ctx, ghost u: Tree) returns (ghost rounds: nat)
      requires RedFocus(c, u) && u.id == n
      modifies this`root, this`nodes, this`tree
      ensures Shape() && RedBlack(tree) && !IsRed(tree)
      ensures Relinked(old(nodes), old(tree)) && rounds <= Depth(c)
    {
      var node := n;
      ghost var ctx, t := c, u;
      rounds := 0;
      Look(ctx, t);
      var p := nodes[node].p;
      while p != RB_NULL && nodes[p].color == Red
        invariant RedFocus(ctx, t) && t.id == node && Seen(ctx, t) && p == Parent(ctx)
        invariant Relinked(old(nodes), old(tree)) && rounds + Depth(ctx) <= Depth(c)
        decreases Depth(ctx)
      {
        rounds := rounds + 1;
        node, ctx, t := InsertStep(node, p, ctx, t);
        Look(ctx, t);
        p := nodes[node].p;
      }
      if nodes[node].p == RB_NULL {
        SetColor(node, Black, ctx, t);
      } else {
        RedBlackPlug(ctx, t);
      }
    }

    /** rbtree_node_init */
    method NodeInit(n: int)
      requires Shape() && n in nodes && n !in Ids(tree)
      modifies this`nodes
      ensures Shape()
      ensures nodes == old(nodes)[n := old(nodes)[n].(color := Red, p := RB_NULL, left := RB_NULL, right := RB_NULL)]
    {
      nodes := nodes[n := nodes[n].(color := Red, p := RB_NULL, left := RB_NULL, right := RB_NULL)];
      RepFrame(old(nodes), nodes, tree, 0);
    }

    /** Node names from smallest to largest position. */
    ghost function Contents(): seq<int>
      reads this
    {
      Elems(tree)
    }

    ghost predicate Ordered()
      reads this
    {
      Sorted(nodes, cmp, Contents())
    }

    /** The search of rbtree_insert: down to a missing child. Everything passed on the
        left compares negative to `v`, everything passed on the right does not. */
    method Descend(v: K) returns (node: int, ghost ctx: Ctx)
      requires Shape() && tree.Node?
      ensures !ctx.Top? && tree == Plug(ctx, Leaf) && ctx.id == node > 0 && node in nodes && nodes[node].s == node
      ensures ctx.InRight? <==> cmp(nodes[node].v, v) < 0
      ensures Before(ctx) + After(ctx) == Contents() && Between(nodes, cmp, Before(ctx), After(ctx), v)
    {
      RepIds(nodes, tree, 0);
      ctx := Top;
      ghost var t := tree;
      var pnode := root;
      node := root;
      while pnode != RB_NULL
        invariant tree == Plug(ctx, t) && Rep(nodes, t, Parent(ctx)) && pnode == Root(t)
        invariant t.Leaf? ==> !ctx.Top?
        invariant !ctx.Top? ==> ctx.id == node > 0 && node in nodes && nodes[node].s == node
        invariant !ctx.Top? ==> (ctx.InRight? <==> cmp(nodes[node].v, v) < 0)
        invariant Between(nodes, cmp, Before(ctx), After(ctx), v)
        decreases t
      {
        node := GetNode(pnode);
        if cmp(nodes[node].v, v) < 0 {
          pnode := nodes[node].right;
          ctx, t := InRight(t.left, node, t.color, ctx), t.right;
        } else {
          pnode := nodes[node].left;
          ctx, t := InLeft(ctx, node, t.color, t.right), t.left;
        }
      }
      ElemsPlug(ctx, Leaf);
    }

    /** Hangs `n`, a fresh red node, where the search for its key ends. */
    method Attach(n: int) returns (ghost ctx: Ctx)
      requires Shape() && tree.Node? && n > 0 && n in nodes && n !in Ids(tree)
      requires nodes[n] == NodeRec(n, RB_NULL, RB_NULL, RB_NULL, nodes[n].v, Red)
      modifies this`nodes, this`tree
      ensures Shape() && tree == Plug(ctx, Node(Leaf, n, Red, Leaf)) && old(tree) == Plug(ctx, Leaf)
      ensures Before(ctx) + After(ctx) == Elems(old(tree)) && Elems(tree) == Before(ctx) + [n] + After(ctx)
      ensures Between(old(nodes), cmp, Before(ctx), After(ctx), old(nodes)[n].v)
      ensures OnlyLinks(old(nodes), nodes, Ids(old(tree)) + {n}) && Ids(tree) == Ids(old(tree)) + {n}
    {
      hide RedBlack, Before, After, Elems, Rep, Distinct;
      var node;
      node, ctx := Descend(nodes[n].v);
      DistinctPlug(ctx, Leaf);
      if cmp(nodes[node].v, nodes[n].v) < 0 {
        nodes := nodes[node := nodes[node].(right := nodes[n].s)];
      } else {
        nodes := nodes[node := nodes[node].(left := nodes[n].s)];
      }
      nodes := nodes[n := nodes[n].(p := nodes[node].s)];
      Attached(old(nodes), nodes, ctx, n);
      tree := Plug(ctx, Node(Leaf, n, Red, Leaf));
    }

    /** rbtree_insert */
    method Insert(n: int) returns (ghost k: nat, ghost rounds: nat)
      requires Valid() && n > 0 && n in nodes && nodes[n].s == n && n !in Contents()
      modifies this
      ensures Valid()
      ensures InsertedAt(old(nodes), cmp, old(Contents()), Contents(), n, k)
      ensures OnlyLinks(old(nodes), nodes, Ids(old(tree)) + {n})
      ensures LogMany(rounds, |old(Contents())|)
    {
      ghost var s := Contents();
      ElemsIds(tree);
      NodeInit(n);
      size := size + 1;
      if root == RB_NULL {
        nodes := nodes[n := nodes[n].(color := Black)];
        root := nodes[n].s;
        tree := Node(Leaf, n, Black, Leaf);
        k, rounds := 0, 0;
      } else {
        ghost var ctx := Attach(n);
        RedBlackPlug(ctx, Leaf);
        DepthBound(ctx, Leaf);
        rounds := FixInsert(n, ctx, Node(Leaf, n, Red, Leaf));
        Logarithmic(old(tree), rounds);
        k := |Before(ctx)|;
        assert s[..k] == Before(ctx) && s[k..] == After(ctx);
      }
    }

    // ----- deletion -----

    /** The current node of the repair loop: the root of `t`, or the stack node standing
        for an empty `t`, whose parent link leads into the tree although nothing in the
        tree leads to it. */
    ghost predicate Stands(node: int, ctx: Ctx, t: Tree)
      reads this
    {
      && Shape() && tree == Plug(ctx, t)
      && node == (if t.Leaf? then ENODE else t.id)
      && node in nodes && nodes[node].s == Root(t) && nodes[node].p == Parent(ctx)
      && nodes[node].color == (if IsRed(t) then Red else Black)
    }

    /** Relinking the tree leaves the stack node alone. */
    lemma StillStands(m: Memory<K>, ids: set<int>, node: int, ctx: Ctx, t: Tree)
      requires OnlyLinks(m, nodes, ids) && ENODE !in ids
      requires Shape() && tree == Plug(ctx, t)
      requires node == (if t.Leaf? then ENODE else t.id) && node in m && m[node].s == Root(t)
      requires t.Leaf? ==> m[node].p == Parent(ctx) && m[node].color == Black
      ensures Stands(node, ctx, t)
    {
      RepPlug(nodes, ctx, t);
    }

    lemma NoStackNode()
      requires Shape()
      ensures ENODE !in Ids(tree)
    {
      RepIds(nodes, tree, 0);
    }

    ghost predicate ShortFocus(node: int, ctx: Ctx, t: Tree)
      reads this
    {
      Stands(node, ctx, t) && OneShort(ctx, t)
    }

    method RedSiblingLeft(node: int, p: int, w: int, ghost ctx: Ctx, ghost t: Tree) returns (ghost ctx': Ctx)
      requires ShortFocus(node, ctx, t) && ctx.InLeft? && ctx.id == p && Root(ctx.sibling) == w && IsRed(ctx.sibling)
      modifies this`root, this`nodes, this`tree
      ensures ShortFocus(node, ctx', t) && ctx'.InLeft? && ctx'.id == p && ctx'.color == Red && !IsRed(ctx'.sibling)
      ensures Depth(ctx') == Depth(ctx) + 1
      ensures Relinked(old(nodes), old(tree))
    {
      ghost var up, sib := ctx.up, ctx.sibling;
      ShortRedSibling(true, up, p, ctx.color, t, sib);
      NoStackNode();
      PlugAcross(ctx, t);
      SetColor(w, Black, Across(ctx, t), sib);
      SetColor(p, Red, up, Node(t, p, Black, Blacken(sib)));
      LeftRotate(p, up, Node(t, p, Red, Blacken(sib)));
      ctx' := InLeft(InLeft(up, w, Black, sib.right), p, Red, sib.left);
      StillStands(old(nodes), Ids(old(tree)), node, ctx', t);
    }

    /** The near nephew is red and the far one black: turn the sibling so that the far one is red. */
    method TurnSiblingLeft(node: int, p: int, w: int, wl: int, ghost ctx: Ctx, ghost t: Tree) returns (ghost ctx': Ctx)
      requires ShortFocus(node, ctx, t) && ctx.InLeft? && ctx.id == p && Root(ctx.sibling) == w
      requires ctx.sibling.Node? && !IsRed(ctx.sibling)
      requires IsRed(ctx.sibling.left) && !IsRed(ctx.sibling.right) && ctx.sibling.left.id == wl
      modifies this`root, this`nodes, this`tree
      ensures ShortFocus(node, ctx', t) && ctx'.InLeft? && ctx'.id == p && ctx'.color == ctx.color && ctx'.up == ctx.up
      ensures ctx'.sibling.Node? && !IsRed(ctx'.sibling) && IsRed(ctx'.sibling.right)
      ensures Relinked(old(nodes), old(tree))
    {
      ghost var sib := ctx.sibling;
      ShortTurned(true, ctx.up, p, ctx.color, t, sib);
      NoStackNode();
      PlugAcross(ctx, t);
      ghost var across := Across(ctx, t);
      SetColor(wl, Black, InLeft(across, w, Black, sib.right), sib.left);
      SetColor(w, Red, across, Node(Blacken(sib.left), w, Black, sib.right));
      RightRotate(w, across, Node(Blacken(sib.left), w, Red, sib.right));
      ctx' := InLeft(ctx.up, p, ctx.color, Node(sib.left.left, wl, Black, Node(sib.left.right, w, Red, sib.right)));
      PlugAcross(ctx', t);
      StillStands(old(nodes), Ids(old(tree)), node, ctx', t);
    }

    /** The far nephew is red: one rotation at the parent ends the repair. */
    method RepairLeft(node: int, p: int, w: int, wr: int, ghost ctx: Ctx, ghost t: Tree) returns (ghost ctx': Ctx)
      requires ShortFocus(node, ctx, t) && ctx.InLeft? && ctx.id == p && Root(ctx.sibling) == w && !IsRed(t)
      requires ctx.sibling.Node? && !IsRed(ctx.sibling) && IsRed(ctx.sibling.right) && ctx.sibling.right.id == wr
      modifies this`root, this`nodes, this`tree
      ensures Stands(node, ctx', t) && RedBlack(tree) && !IsRed(tree)
      ensures Relinked(old(nodes), old(tree))
    {
      ghost var up, sib, c := ctx.up, ctx.sibling, ctx.color;
      ShortRepaired(true, up, p, c, t, sib);
      NoStackNode();
      PlugAcross(ctx, t);
      Here(up, Fill(ctx, t));
      SetColor(w, nodes[p].color, Across(ctx, t), sib);
      ghost var sib1 := Node(sib.left, w, c, sib.right);
      SetColor(p, Black, up, Node(t, p, c, sib1));
      SetColor(wr, Black, InRight(sib.left, w, c, InRight(t, p, Black, up)), sib.right);
      ghost var sib2 := Node(sib.left, w, c, Blacken(sib.right));
      LeftRotate(p, up, Node(t, p, Black, sib2));
      ctx' := InLeft(InLeft(up, w, c, Blacken(sib.right)), p, Black, sib.left);
      StillStands(old(nodes), Ids(old(tree)), node, ctx', t);
    }

    /** One round with a black sibling. */
    method BlackSiblingLeft(node: int, p: int, w: int, ghost ctx: Ctx, ghost t: Tree)
      returns (node': int, done: bool, ghost ctx': Ctx, ghost t': Tree)
      requires ShortFocus(node, ctx, t) && ctx.InLeft? && ctx.id == p && Root(ctx.sibling) == w && !IsRed(t)
      requires ctx.sibling.Node? && !IsRed(ctx.sibling)
      modifies this`root, this`nodes, this`tree
      ensures !done ==> ShortFocus(node', ctx', t') && ctx' == ctx.up && IsRed(t') == (ctx.color == Red)
      ensures done ==> Stands(node', ctx', t') && RedBlack(tree) && !IsRed(tree) && !IsRed(t')
      ensures Relinked(old(nodes), old(tree))
    {
      hide Distinct, Elems, RedBlack, CtxRedBlack;
      ghost var sib := ctx.sibling;
      PlugAcross(ctx, t);
      Here(Across(ctx, t), sib);
      var wl, wr := nodes[w].left, nodes[w].right;
      if (wl == RB_NULL || nodes[GetNode(wl)].color == Black) && (wr == RB_NULL || nodes[GetNode(wr)].color == Black) {
        ShortMovesUp(true, ctx.up, p, ctx.color, t, sib);
        SetColor(w, Red, Across(ctx, t), sib);
        node', done, ctx', t' := p, false, ctx.up, Node(t, p, ctx.color, sib.(color := Red));
        Look(ctx', t');
      } else {
        var w1, wr1 := w, wr;
        ctx' := ctx;
        if wr == RB_NULL || nodes[GetNode(wr)].color == Black {
          ctx' := TurnSiblingLeft(node, p, w, wl, ctx, t);
          PlugAcross(ctx', t);
          Here(ctx'.up, Fill(ctx', t));
          w1 := GetNode(nodes[p].right);
          Here(Across(ctx', t), ctx'.sibling);
          wr1 := GetNode(nodes[w1].right);
        }
        ctx' := RepairLeft(node, p, w1, wr1, ctx', t);
        node', done, t' := node, true, t;
      }
    }

    method DeleteStepLeft(node: int, p: int, ghost ctx: Ctx, ghost t: Tree)
      returns (node': int, done: bool, ghost ctx': Ctx, ghost t': Tree)
      requires ShortFocus(node, ctx, t) && ctx.InLeft? && ctx.id == p && !IsRed(t)
      modifies this`root, this`nodes, this`tree
      ensures !done ==>
        ShortFocus(node', ctx', t') && (Depth(ctx') < Depth(ctx) || (Depth(ctx') == Depth(ctx) && IsRed(t')))
      ensures done ==> Stands(node', ctx', t') && RedBlack(tree) && !IsRed(tree) && !IsRed(t')
      ensures Relinked(old(nodes), old(tree))
    {
      hide Distinct, Elems, RedBlack, CtxRedBlack;
      ShortSibling(ctx, t);
      PlugAcross(ctx, t);
      Here(ctx.up, Fill(ctx, t));
      Look(Across(ctx, t), ctx.sibling);
      var w := GetNode(nodes[p].right);
      ctx' := ctx;
      if nodes[w].color == Red {
        ctx' := RedSiblingLeft(node, p, w, ctx, t);
        ShortSibling(ctx', t);
        PlugAcross(ctx', t);
        Here(ctx'.up, Fill(ctx', t));
        w := GetNode(nodes[p].right);
      }
      node', done, ctx', t' := BlackSiblingLeft(node, p, w, ctx', t);
    }

    method RedSiblingRight(node: int, p: int, w: int, ghost ctx: Ctx, ghost t: Tree) returns (ghost ctx': Ctx)
      requires ShortFocus(node, ctx, t) && ctx.InRight? && ctx.id == p && Root(ctx.sibling) == w && IsRed(ctx.sibling)
      modifies this`root, this`nodes, this`tree
      ensures ShortFocus(node, ctx', t) && ctx'.InRight? && ctx'.id == p && ctx'.color == Red && !IsRed(ctx'.sibling)
      ensures Depth(ctx') == Depth(ctx) + 1
      ensures Relinked(old(nodes), old(tree))
    {
      ghost var up, sib := ctx.up, ctx.sibling;
      ShortRedSibling(false, up, p, ctx.color, t, sib);
      NoStackNode();
      PlugAcross(ctx, t);
      SetColor(w, Black, Across(ctx, t), sib);
      SetColor(p, Red, up, Node(Blacken(sib), p, Black, t));
      RightRotate(p, up, Node(Blacken(sib), p, Red, t));
      ctx' := InRight(sib.right, p, Red, InRight(sib.left, w, Black, up));
      StillStands(old(nodes), Ids(old(tree)), node, ctx', t);
    }

    /** The near nephew is red and the far one black: turn the sibling so that the far one is red. */
    method TurnSiblingRight(node: int, p: int, w: int, wr: int, ghost ctx: Ctx, ghost t: Tree) returns (ghost ctx': Ctx)
      requires ShortFocus(node, ctx, t) && ctx.InRight? && ctx.id == p && Root(ctx.sibling) == w
      requires ctx.sibling.Node? && !IsRed(ctx.sibling)
      requires IsRed(ctx.sibling.right) && !IsRed(ctx.sibling.left) && ctx.sibling.right.id == wr
      modifies this`root, this`nodes, this`tree
      ensures ShortFocus(node, ctx', t) && ctx'.InRight? && ctx'.id == p && ctx'.color == ctx.color && ctx'.up == ctx.up
      ensures ctx'.sibling.Node? && !IsRed(ctx'.sibling) && IsRed(ctx'.sibling.left)
      ensures Relinked(old(nodes), old(tree))
    {
      ghost var sib := ctx.sibling;
      ShortTurned(false, ctx.up, p, ctx.color, t, sib);
      NoStackNode();
      PlugAcross(ctx, t);
      ghost var across := Across(ctx, t);
      SetColor(wr, Black, InRight(sib.left, w, Black, across), sib.right);
      SetColor(w, Red, across, Node(sib.left, w, Black, Blacken(sib.right)));
      LeftRotate(w, across, Node(sib.left, w, Red, Blacken(sib.right)));
      ctx' := InRight(Node(Node(sib.left, w, Red, sib.right.left), wr, Black, sib.right.right), p, ctx.color, ctx.up);
      PlugAcross(ctx', t);
      StillStands(old(nodes), Ids(old(tree)), node, ctx', t);
    }

    /** The far nephew is red: one rotation at the parent ends the repair. */
    method RepairRight(node: int, p: int, w: int, wl: int, ghost ctx: Ctx, ghost t: Tree) returns (ghost ctx': Ctx)
      requires ShortFocus(node, ctx, t) && ctx.InRight? && ctx.id == p && Root(ctx.sibling) == w && !IsRed(t)
      requires ctx.sibling.Node? && !IsRed(ctx.sibling) && IsRed(ctx.sibling.left) && ctx.sibling.left.id == wl
      modifies this`root, this`nodes, this`tree
      ensures Stands(node, ctx', t) && RedBlack(tree) && !IsRed(tree)
      ensures Relinked(old(nodes), old(tree))
    {
      ghost var up, sib, c := ctx.up, ctx.sibling, ctx.color;
      ShortRepaired(false, up, p, c, t, sib);
      NoStackNode();
      PlugAcross(ctx, t);
      Here(up, Fill(ctx, t));
      SetColor(w, nodes[p].color, Across(ctx, t), sib);
      ghost var sib1 := Node(sib.left, w, c, sib.right);
      SetColor(p, Black, up, Node(sib1, p, c, t));
      SetColor(wl, Black, InLeft(InLeft(up, p, Black, t), w, c, sib.right), sib.left);
      ghost var sib2 := Node(Blacken(sib.left), w, c, sib.right);
      RightRotate(p, up, Node(sib2, p, Black, t));
      ctx' := InRight(sib.right, p, Black, InRight(Blacken(sib.left), w, c, up));
      StillStands(old(nodes), Ids(old(tree)), node, ctx', t);
    }

    /** One round with a black sibling. */
    method BlackSiblingRight(node: int, p: int, w: int, ghost ctx: Ctx, ghost t: Tree)
      returns (node': int, done: bool, ghost ctx': Ctx, ghost t': Tree)
      requires ShortFocus(node, ctx, t) && ctx.InRight? && ctx.id == p && Root(ctx.sibling) == w && !IsRed(t)
      requires ctx.sibling.Node? && !IsRed(ctx.sibling)
      modifies this`root, this`nodes, this`tree
      ensures !done ==> ShortFocus(node', ctx', t') && ctx' == ctx.up && IsRed(t') == (ctx.color == Red)
      ensures done ==> Stands(node', ctx', t') && RedBlack(tree) && !IsRed(tree) && !IsRed(t')
      ensures Relinked(old(nodes), old(tree))
    {
      hide Distinct, Elems, RedBlack, CtxRedBlack;
      ghost var sib := ctx.sibling;
      PlugAcross(ctx, t);
      Here(Across(ctx, t), sib);
      var wr, wl := nodes[w].right, nodes[w].left;
      if (wr == RB_NULL || nodes[GetNode(wr)].color == Black) && (wl == RB_NULL || nodes[GetNode(wl)].color == Black) {
        ShortMovesUp(false, ctx.up, p, ctx.color, t, sib);
        SetColor(w, Red, Across(ctx, t), sib);
        node', done, ctx', t' := p, false, ctx.up, Node(sib.(color := Red), p, ctx.color, t);
        Look(ctx', t');
      } else {
        var w1, wl1 := w, wl;
        ctx' := ctx;
        if wl == RB_NULL || nodes[GetNode(wl)].color == Black {
          ctx' := TurnSiblingRight(node, p, w, wr, ctx, t);
          PlugAcross(ctx', t);
          Here(ctx'.up, Fill(ctx', t));
          w1 := GetNode(nodes[p].left);
          Here(Across(ctx', t), ctx'.sibling);
          wl1 := GetNode(nodes[w1].left);
        }
        ctx' := RepairRight(node, p, w1, wl1, ctx', t);
        node', done, t' := node, true, t;
      }
    }

    method DeleteStepRight(node: int, p: int, ghost ctx: Ctx, ghost t: Tree)
      returns (node': int, done: bool, ghost ctx': Ctx, ghost t': Tree)
      requires ShortFocus(node, ctx, t) && ctx.InRight? && ctx.id == p && !IsRed(t)
      modifies this`root, this`nodes, this`tree
      ensures !done ==>
        ShortFocus(node', ctx', t') && (Depth(ctx') < Depth(ctx) || (Depth(ctx') == Depth(ctx) && IsRed(t')))
      ensures done ==> Stands(node', ctx', t') && RedBlack(tree) && !IsRed(tree) && !IsRed(t')
      ensures Relinked(old(nodes), old(tree))
    {
      hide Distinct, Elems, RedBlack, CtxRedBlack;
      ShortSibling(ctx, t);
      PlugAcross(ctx, t);
      Here(ctx.up, Fill(ctx, t));
      Look(Across(ctx, t), ctx.sibling);
      var w := GetNode(nodes[p].left);
      ctx' := ctx;
      if nodes[w].color == Red {
        ctx' := RedSiblingRight(node, p, w, ctx, t);
        ShortSibling(ctx', t);
        PlugAcross(ctx', t);
        Here(ctx'.up, Fill(ctx', t));
        w := GetNode(nodes[p].left);
      }
      node', done, ctx', t' := BlackSiblingRight(node, p, w, ctx', t);
    }

    method DeleteStep(node: int, ghost ctx: Ctx, ghost t: Tree)
      returns (node': int, done: bool, ghost ctx': Ctx, ghost t': Tree)
      requires ShortFocus(node, ctx, t) && !ctx.Top? && !IsRed(t)
      modifies this`root, this`nodes, this`tree
      ensures !done ==>
        ShortFocus(node', ctx', t') && (Depth(ctx') < Depth(ctx) || (Depth(ctx') == Depth(ctx) && IsRed(t')))
      ensures done ==> Stands(node', ctx', t') && RedBlack(tree) && !IsRed(tree) && !IsRed(t')
      ensures Relinked(old(nodes), old(tree))
    {
      ShortSibling(ctx, t);
      Here(ctx, t);
      var p := GetNode(nodes[node].p);
      // an empty left focus has the name RB_NULL, and so has no other child of p, since the sibling exists
      if nodes[p].left == nodes[node].s {
        node', done, ctx', t' := DeleteStepLeft(node, p, ctx, t);
      } else {
        node', done, ctx', t' := DeleteStepRight(node, p, ctx, t);
      }
    }

    /** rbtree_fix_delete; every round but a last one is at a higher node. */
    method FixDelete(x: int, ghost c: Ctx, ghost u: Tree) returns (ghost rounds: nat)
      requires ShortFocus(x, c, u)
      modifies this`root, this`nodes, this`tree
      ensures Shape() && RedBlack(tree) && !IsRed(tree)
      ensures Relinked(old(nodes), old(tree)) && rounds <= Depth(c) + 1
    {
      var node := x;
      ghost var ctx, t := c, u;
      rounds := 0;
      var done := false;
      while !done && nodes[node].p != RB_NULL && nodes[node].color == Black
        invariant !done ==> ShortFocus(node, ctx, t)
        invariant done ==> Stands(node, ctx, t) && RedBlack(tree) && !IsRed(tree) && !IsRed(t)
        invariant Relinked(old(nodes), old(tree))
        invariant rounds <= Depth(c) + 1 && (!done ==> rounds + Depth(ctx) <= Depth(c) + if IsRed(t) then 1 else 0)
        decreases !done, Depth(ctx), !IsRed(t)
      {
        rounds := rounds + 1;
        node, done, ctx, t := DeleteStep(node, ctx, t);
      }
      Here(ctx, t);
      FinalBlack(node, ctx, t, done);
    }

    /** The last line of rbtree_fix_delete. */
    method FinalBlack(node: int, ghost ctx: Ctx, ghost t: Tree, ghost done: bool)
      requires Stands(node, ctx, t)
      requires if done then RedBlack(tree) && !IsRed(tree) && !IsRed(t) else OneShort(ctx, t) && (ctx.Top? || IsRed(t))
      modifies this`nodes, this`tree
      ensures Shape() && RedBlack(tree) && !IsRed(tree)
      ensures Relinked(old(nodes), old(tree))
    {
      if !done {
        RedBlackPlug(ctx, Blacken(t));
      }
      NoStackNode();
      nodes := nodes[node := nodes[node].(color := Black)];
      if t.Node? {
        Recolored(old(nodes), ctx, t, Black);
        tree := Plug(ctx, Blacken(t));
      } else {
        RepFrame(old(nodes), nodes, tree, 0);
      }
    }

    /** rbtree_min_node: the first node of a subtree. */
    method MinNode(n: int, ghost ctx: Ctx, ghost t: Tree) returns (node: int, ghost inner: Ctx, ghost u: Tree)
      requires Shape() && tree == Plug(ctx, t) && t.Node? && t.id == n
      ensures t == Plug(inner, u) && u.Node? && u.left.Leaf? && u.id == node && Before(inner) == []
    {
      node, inner, u := n, Top, t;
      RepPlug(nodes, ctx, t);
      ghost var p := Parent(ctx);
      while nodes[node].left != RB_NULL
        invariant t == Plug(inner, u) && u.Node? && u.id == node && Before(inner) == [] && Rep(nodes, u, p)
        decreases u
      {
        inner, u, p := InLeft(inner, node, u.color, u.right), u.left, node;
        node := GetNode(nodes[node].left);
      }
    }

    /** The part of rbtree_delete that bypasses `y`, which has at most the child named `px`. */
    method Unlink(y: int, px: int, ghost ctx: Ctx, ghost t: Tree, ghost u: Tree) returns (x: int)
      requires Shape() && tree == Plug(ctx, t) && OnlyChild(t, u) && t.id == y && px == Root(u)
      requires ENODE in nodes && nodes[ENODE].s == RB_NULL && nodes[ENODE].color == Black
      modifies this`root, this`nodes, this`tree
      ensures Stands(x, ctx, u) && Ids(tree) == Ids(old(tree)) - {y}
      ensures OnlyLinks(old(nodes), nodes, Ids(old(tree)) + {ENODE})
      ensures y in nodes && y in old(nodes) && nodes[y] == old(nodes)[y]
      ensures StackNodeReady()
    {
      hide OnlyLinks, Stands;
      NoStackNode();
      RepPlug(nodes, ctx, t);
      DistinctPlug(ctx, t);
      var m := nodes;
      x := if px != RB_NULL then GetNode(px) else ENODE;
      m := m[x := m[x].(p := m[y].p)];
      if m[y].p == RB_NULL {
        root := m[x].s;
      } else {
        var p := GetNode(m[y].p);
        if m[y].s == m[p].left {
          m := m[p := m[p].(left := m[x].s)];
        } else {
          m := m[p := m[p].(right := m[x].s)];
        }
      }
      Bypassed(nodes, m, ctx, t, u);
      BypassLinks(nodes, m, ctx, t, u);
      nodes := m;
      tree := Plug(ctx, u);
      HangsThere(x, ctx, u);
    }

    lemma HangsThere(x: int, ctx: Ctx, u: Tree)
      requires Shape() && tree == Plug(ctx, u) && x == (if u.Leaf? then ENODE else u.id) && x in nodes
      requires u.Leaf? ==> nodes[x].s == RB_NULL && nodes[x].p == Parent(ctx) && nodes[x].color == Black
      ensures Stands(x, ctx, u)
    {
      RepPlug(nodes, ctx, u);
    }

    /** The part of rbtree_delete that puts the unlinked `y` in the place of `node`. `x` is the
        current node of the coming repair. */
    method TakePlace(y: int, node: int, x: int, ghost ctx: Ctx, ghost t: Tree)
      requires Placing(nodes, ctx, t, y, x) && t.id == node
      requires Shape() && tree == Plug(ctx, t)
      modifies this`root, this`nodes, this`tree
      ensures Shape() && tree == Plug(ctx, t.(id := y)) && Ids(tree) == Ids(old(tree)) - {node} + {y}
      ensures OnlyLinks(old(nodes), nodes, Ids(old(tree)) + {y, ENODE})
      ensures nodes[ENODE] == if old(nodes)[y].p == node && x == ENODE then old(nodes)[ENODE].(p := y)
        else old(nodes)[ENODE]
    {
      TookPlaceCorrect(nodes, ctx, t, y, x);
      TookPlaceLinks(nodes, ctx, t, y, x);
      Above(nodes, ctx, t);
      Below(nodes, ctx, t);
      var m := nodes;
      if m[y].p == m[node].s {
        m := m[x := m[x].(p := m[y].s)];
      }
      m := m[y := m[y].(color := m[node].color)];
      if m[node].p == RB_NULL {
        root := m[y].s;
      } else {
        var p := GetNode(m[node].p);
        if m[p].left == m[node].s {
          m := m[p := m[p].(left := m[y].s)];
        } else {
          m := m[p := m[p].(right := m[y].s)];
        }
      }
      m := m[y := m[y].(p := m[node].p)];
      m := m[node := m[node].(p := RB_NULL)];
      if m[node].left != RB_NULL {
        var l := GetNode(m[node].left);
        m := m[l := m[l].(p := m[y].s)];
      }
      m := m[y := m[y].(left := m[node].left)];
      m := m[node := m[node].(left := RB_NULL)];
      if m[node].right != RB_NULL {
        var r := GetNode(m[node].right);
        m := m[r := m[r].(p := m[y].s)];
      }
      m := m[y := m[y].(right := m[node].right)];
      m := m[node := m[node].(right := RB_NULL)];
      assert m == TookPlace(nodes, y, node, x);
      nodes := m;
      tree := Plug(ctx, t.(id := y));
    }

    /** What a deletion has done to the tree before the repair: `u` hangs in `ctx` and stands for
        the current node `x`; `node` is gone. */
    ghost predicate TakenOut(m: Memory<K>, t0: Tree, node: int, x: int, ctx: Ctx, u: Tree, c: Color)
      reads this
    {
      && Stands(x, ctx, u)
      && (if c == Black then OneShort(ctx, u) else RedBlack(tree) && !IsRed(tree))
      && OnlyLinks(m, nodes, Ids(t0) + {ENODE})
      && Ids(tree) == Ids(t0) - {node}
    }

    ghost predicate StackNodeReady()
      reads this
    {
      ENODE in nodes && nodes[ENODE].s == RB_NULL && nodes[ENODE].color == Black
    }

    /** `node` has at most one child. */
    method TakeOutSimple(node: int, px: int, ghost ctx: Ctx, ghost t: Tree, ghost u: Tree)
      returns (x: int, color: Color)
      requires Shape() && RedBlack(tree) && !IsRed(tree) && StackNodeReady()
      requires tree == Plug(ctx, t) && OnlyChild(t, u) && t.id == node && px == Root(u)
      modifies this`root, this`nodes, this`tree
      ensures TakenOut(old(nodes), old(tree), node, x, ctx, u, color)
      ensures Elems(tree) == Before(ctx) + Elems(u) + After(ctx)
      ensures node in nodes && node in old(nodes) && nodes[node] == old(nodes)[node] && StackNodeReady()
    {
      RedBlackPlug(ctx, t);
      x := Unlink(node, px, ctx, t, u);
      color := nodes[node].color;
      assert color == t.color by { RepPlug(old(nodes), ctx, t); }
      if color == Black {
        BypassBlack(ctx, t, u);
      } else {
        BypassRed(ctx, t, u);
        RedBlackPlug(ctx, u);
      }
      ElemsPlug(ctx, u);
    }

    /** After the replacement node `y` has moved: `u` hangs below it as it hung below the old node. */
    lemma MovedIn(x: int, y: int, ctx: Ctx, t: Tree, inner: Ctx, u: Tree) returns (ctx': Ctx)
      requires Shape() && t.Node? && t.right == Plug(inner, u) && tree == Plug(ctx, t.(id := y))
      requires StackNodeReady() && x == if u.Leaf? then ENODE else u.id
      requires u.Leaf? ==> nodes[ENODE].p == if inner.Top? then y else Parent(inner)
      ensures ctx' == Append(inner, InRight(t.left, y, t.color, ctx)) && Stands(x, ctx', u)
    {
      var lower := InRight(t.left, y, t.color, ctx);
      ctx' := Append(inner, lower);
      PlugAppend(inner, lower, u);
      ParentAppend(inner, lower);
      if u.Node? { Look(ctx', u); RepPlug(nodes, ctx', u); }
    }

    /** `node` has two children: the first node of the right subtree is taken out first. */
    method TakeOutNext(node: int, ghost ctx: Ctx, ghost t: Tree)
      returns (x: int, color: Color, y: int, ghost inner: Ctx, ghost yt: Tree)
      requires Shape() && RedBlack(tree) && !IsRed(tree) && StackNodeReady()
      requires tree == Plug(ctx, t) && t.Node? && t.id == node && t.left.Node? && t.right.Node?
      modifies this`root, this`nodes, this`tree
      ensures yt.Node? && yt.left.Leaf? && yt.id == y && t.right == Plug(inner, yt) && Before(inner) == []
      ensures TakenOut(old(nodes), old(tree), y, x, Append(inner, InRight(t.left, node, t.color, ctx)), yt.right, color)
      ensures tree == Plug(ctx, t.(right := Plug(inner, yt.right)))
      ensures Placing(nodes, ctx, t.(right := Plug(inner, yt.right)), y, x)
      ensures StackNodeReady() && y in Ids(old(tree)) && node in Ids(old(tree)) && y != node
      ensures nodes[y].p == node <==> inner.Top?
    {
      NoStackNode();
      Below(nodes, ctx, t);
      ghost var lower := InRight(t.left, node, t.color, ctx);
      y, inner, yt := MinNode(GetNode(nodes[node].right), lower, t.right);
      ghost var yctx := Append(inner, lower);
      PlugAppend(inner, lower, yt);
      Below(nodes, yctx, yt);
      InnerParent(nodes, ctx, t, inner, yt);
      x, color := TakeOutSimple(y, nodes[y].right, yctx, yt, yt.right);
      PlugAppend(inner, lower, yt.right);
      PlacingAt(nodes, ctx, t.(right := Plug(inner, yt.right)), y, x, inner, yt.right);
    }

    /** ... and then moves into the place of `node`. */
    method TakeOutInner(node: int, ghost ctx: Ctx, ghost t: Tree)
      returns (x: int, color: Color, ghost ctx': Ctx, ghost u: Tree)
      requires Shape() && RedBlack(tree) && !IsRed(tree) && StackNodeReady()
      requires tree == Plug(ctx, t) && t.Node? && t.id == node && t.left.Node? && t.right.Node?
      modifies this`root, this`nodes, this`tree
      ensures TakenOut(old(nodes), old(tree), node, x, ctx', u, color) && Depth(ctx') < Height(old(tree))
      ensures Elems(tree) == Before(ctx) + Elems(t.left) + Elems(t.right) + After(ctx)
    {
      hide Rep, Distinct, Elems, Before, After, CtxRedBlack, RedBlack, Height, Depth;
      var y; ghost var inner, yt;
      x, color, y, inner, yt := TakeOutNext(node, ctx, t);
      u := yt.right;
      ghost var lower := InRight(t.left, node, t.color, ctx);
      ghost var t1 := t.(right := Plug(inner, u));
      ParentAppend(inner, lower);
      TakePlace(y, node, x, ctx, t1);
      ctx' := MovedIn(x, y, ctx, t1, inner, u);
      if color == Black {
        CtxRename(inner, t.left, node, y, t.color, ctx, BlackHeight(u) + 1);
      } else {
        SameRules(ctx, t1, t1.(id := y));
      }
      MovedInElems(ctx, t.left, t.color, inner, yt);
      InnerDepth(ctx, t, inner, yt, y);
    }

    method TakeOut(node: int, ghost ctx: Ctx, ghost t: Tree)
      returns (x: int, color: Color, ghost ctx': Ctx, ghost u: Tree)
      requires Shape() && RedBlack(tree) && !IsRed(tree) && StackNodeReady()
      requires tree == Plug(ctx, t) && t.Node? && t.id == node
      modifies this`root, this`nodes, this`tree
      ensures TakenOut(old(nodes), old(tree), node, x, ctx', u, color) && Depth(ctx') < Height(old(tree))
      ensures Elems(tree) == Before(ctx) + Elems(t.left) + Elems(t.right) + After(ctx)
    {
      hide Rep, Distinct, Before, After, CtxRedBlack, RedBlack;
      Below(nodes, ctx, t);
      DepthBound(ctx, t);
      if nodes[node].left == RB_NULL {
        x, color := TakeOutSimple(node, nodes[node].right, ctx, t, t.right);
        ctx', u := ctx, t.right;
      } else if nodes[node].right == RB_NULL {
        x, color := TakeOutSimple(node, nodes[node].left, ctx, t, t.left);
        ctx', u := ctx, t.left;
      } else {
        x, color, ctx', u := TakeOutInner(node, ctx, t);
      }
    }

    method TakeOutAndFix(node: int, ghost ctx: Ctx, ghost t: Tree) returns (ghost rounds: nat)
      requires Shape() && RedBlack(tree) && !IsRed(tree) && StackNodeReady()
      requires tree == Plug(ctx, t) && t.Node? && t.id == node
      modifies this`root, this`nodes, this`tree
      ensures Shape() && RedBlack(tree) && !IsRed(tree)
      ensures OnlyLinks(old(nodes), nodes, Ids(old(tree)) + {ENODE})
      ensures Elems(tree) == Before(ctx) + Elems(t.left) + Elems(t.right) + After(ctx)
      ensures LogMany(rounds, |Elems(old(tree))|)
    {
      rounds := 0;
      var x, color; ghost var ctx', u;
      x, color, ctx', u := TakeOut(node, ctx, t);
      if color == Black {
        rounds := FixDelete(x, ctx', u);
      }
      Logarithmic(old(tree), rounds);
    }

    /** rbtree_delete */
    method Delete(node: int) returns (ghost k: nat, ghost rounds: nat)
      requires Valid() && node in Contents()
      modifies this
      ensures Valid()
      ensures RemovedAt(old(Contents()), Contents(), node, k)
      ensures OnlyLinks(old(nodes), nodes, Ids(old(tree)))
      ensures LogMany(rounds, |old(Contents())|)
    {
      ElemsIds(tree);
      ghost var ctx, t := Locate(Top, tree, node);
      k := RemovedFrom(ctx, t);
      Below(nodes, ctx, t);
      size := size - 1;
      StackNodeIn(node);
      rounds := TakeOutAndFix(node, ctx, t);
      StackNodeOut();
    }

    /** The stack node comes to life; its key is never read. */
    method StackNodeIn(node: int)
      requires Shape() && ENODE !in nodes && node in nodes
      modifies this`nodes
      ensures Shape() && StackNodeReady()
      ensures nodes == old(nodes)[ENODE := nodes[ENODE]]
    {
      NoStackNode();
      nodes := nodes[ENODE := NodeRec(RB_NULL, RB_NULL, RB_NULL, RB_NULL, nodes[node].v, Black)];
      RepFrame(old(nodes), nodes, tree, 0);
    }

    /** ... and goes with the call. */
    method StackNodeOut()
      requires Shape()
      modifies this`nodes
      ensures Shape() && nodes == old(nodes) - {ENODE}
    {
      NoStackNode();
      nodes := nodes - {ENODE};
      RepFrame(old(nodes), nodes, tree, 0);
    }

    // ----- searches and traversal -----

    /** rbtree_lower */
    method FindLower(v: K) returns (r: int, ghost rounds: nat)
      requires Valid()
      ensures r == Lower(nodes, cmp, tree, v) && LogMany(rounds, |Contents()|)
    {
      rounds := 0;
      var node := root;
      var prev := RB_NULL;
      var prevBigger := false;
      ghost var t, p := tree, 0;
      while node != RB_NULL
        invariant Rep(nodes, t, p) && node == Root(t) && rounds + Height(t) <= Height(tree)
        invariant prevBigger ==> LowerLeft(nodes, cmp, t, v, prev) == Lower(nodes, cmp, tree, v)
        invariant !prevBigger ==> Lower(nodes, cmp, t, v) == Lower(nodes, cmp, tree, v)
        decreases t
      {
        rounds := rounds + 1;
        var pnode := GetNode(node);
        if cmp(nodes[pnode].v, v) < 0 {
          if prevBigger {
            break;
          }
          t, p := t.right, node;
          node := nodes[pnode].right;
        } else {
          t, p := t.left, node;
          node := nodes[pnode].left;
          prevBigger := true;
        }
        prev := pnode;
      }
      Logarithmic(tree, rounds);
      r := if prevBigger then prev else RB_NULL;
    }

    /** rbtree_min */
    method Min() returns (r: int)
      requires Valid()
      ensures r == First(Contents())
    {
      r := RB_NULL;
      if root != RB_NULL {
        ghost var inner, u;
        r, inner, u := MinNode(GetNode(root), Top, tree);
        ElemsPlug(inner, u);
      }
    }

    /** rbtree_max_node: the last node of a subtree. */
    method MaxNode(n: int, ghost ctx: Ctx, ghost t: Tree) returns (node: int, ghost inner: Ctx, ghost u: Tree)
      requires Shape() && tree == Plug(ctx, t) && t.Node? && t.id == n
      ensures t == Plug(inner, u) && u.Node? && u.right.Leaf? && u.id == node && After(inner) == []
    {
      node, inner, u := n, Top, t;
      RepPlug(nodes, ctx, t);
      ghost var p := Parent(ctx);
      while nodes[node].right != RB_NULL
        invariant t == Plug(inner, u) && u.Node? && u.id == node && After(inner) == [] && Rep(nodes, u, p)
        decreases u
      {
        inner, u, p := InRight(u.left, node, u.color, inner), u.right, node;
        node := GetNode(nodes[node].right);
      }
    }

    /** rbtree_max */
    method Max() returns (r: int)
      requires Valid()
      ensures r == Last(Contents())
    {
      r := RB_NULL;
      if root != RB_NULL {
        ghost var inner, u;
        r, inner, u := MaxNode(GetNode(root), Top, tree);
        ElemsPlug(inner, u);
      }
    }

    /** The way up of rbtree_next: to the first ancestor entered from its left. */
    method NextAbove(n: int, ghost c: Ctx, ghost u: Tree) returns (r: int)
      requires Shape() && tree == Plug(c, u) && u.Node? && u.id == n
      ensures r == First(After(c))
    {
      var node := n;
      ghost var ctx, t := c, u;
      r := RB_NULL;
      Look(ctx, t);
      while nodes[node].p != RB_NULL
        invariant tree == Plug(ctx, t) && t.Node? && t.id == node && Seen(ctx, t) && After(ctx) == After(c)
        invariant r == RB_NULL
        decreases Depth(ctx)
      {
        Above(nodes, ctx, t);
        Here(ctx, t);
        var p := GetNode(nodes[node].p);
        if nodes[node].s == nodes[p].right {
          node := p;
          ctx, t := ctx.up, Fill(ctx, t);
          Look(ctx, t);
        } else {
          r := p;
          break;
        }
      }
    }

    /** rbtree_next */
    method Next(node: int) returns (r: int)
      requires Valid() && node in Contents()
      ensures NextIn(Contents(), node, r)
    {
      ElemsIds(tree);
      ghost var ctx, t := Locate(Top, tree, node);
      Below(nodes, ctx, t);
      NeighboursAt(ctx, t);
      if nodes[node].right != RB_NULL {
        ghost var inner, u;
        r, inner, u := MinNode(GetNode(nodes[node].right), InRight(t.left, node, t.color, ctx), t.right);
        ElemsPlug(inner, u);
      } else {
        r := NextAbove(node, ctx, t);
      }
    }

    /** The way up of rbtree_prev: to the first ancestor entered from its right. */
    method PrevAbove(n: int, ghost c: Ctx, ghost u: Tree) returns (r: int)
      requires Shape() && tree == Plug(c, u) && u.Node? && u.id == n
      ensures r == Last(Before(c))
    {
      var node := n;
      ghost var ctx, t := c, u;
      r := RB_NULL;
      Look(ctx, t);
      while nodes[node].p != RB_NULL
        invariant tree == Plug(ctx, t) && t.Node? && t.id == node && Seen(ctx, t) && Before(ctx) == Before(c)
        invariant r == RB_NULL
        decreases Depth(ctx)
      {
        Above(nodes, ctx, t);
        Here(ctx, t);
        var p := GetNode(nodes[node].p);
        if nodes[node].s == nodes[p].left {
          node := p;
          ctx, t := ctx.up, Fill(ctx, t);
          Look(ctx, t);
        } else {
          r := p;
          break;
        }
      }
    }

    /** rbtree_prev */
    method Prev(node: int) returns (r: int)
      requires Valid() && node in Contents()
      ensures PrevIn(Contents(), node, r)
    {
      ElemsIds(tree);
      ghost var ctx, t := Locate(Top, tree, node);
      Below(nodes, ctx, t);
      NeighboursAt(ctx, t);
      if nodes[node].left != RB_NULL {
        ghost var inner, u;
        r, inner, u := MaxNode(GetNode(nodes[node].left), InLeft(ctx, node, t.color, t.right), t.left);
        ElemsPlug(inner, u);
      } else {
        r := PrevAbove(node, ctx, t);
      }
    }

    /** From rbtree_min by rbtree_next until null. */
    method Walk() returns (visited: seq<int>)
      requires Valid()
      ensures visited == Contents()
    {
      hide *;
      visited := [];
      ghost var c := Contents();
      AllKnown();
      NullIsName(c);
      var node := Min();
      EndsAt(c, 0, node);
      while node != RB_NULL
        invariant visited <= c
        invariant node == At(c, |visited|)
        decreases |c| - |visited|
      {
        ghost var i := |visited|;
        EndsAt(c, i, node);
        visited := visited + [node];
        node := Next(node);
        NextAfter(c, i, node);
      }
      EndsAt(c, |visited|, node);
    }

    lemma NullIsName(c: seq<int>)
      requires forall n :: n in c ==> n > 0
      ensures forall n :: n in c ==> n != RB_NULL
    {
    }

    /** Null stands at the end and nowhere else. */
    lemma EndsAt(c: seq<int>, i: nat, node: int)
      requires forall n :: n in c ==> n != RB_NULL
      ensures First(c) == At(c, 0)
      ensures i <= |c| && node == At(c, i) ==> (node != RB_NULL <==> i < |c|) && (i < |c| ==> c[i] == node && c[i] in c)
    {
      if i < |c| { assert c[i] in c; }
    }

    lemma NextAfter(c: seq<int>, i: nat, r: int)
      requires i < |c|
      ensures NextIn(c, c[i], r) ==> r == At(c, i + 1)
    {
    }

    /** Members are known, named by themselves, and occur once. */
    lemma MemberKnown(n: int)
      requires Valid() && n in Contents()
      ensures n > 0 && n in nodes && nodes[n].s == n
      ensures NoDuplicates(Contents())
    {
      ElemsDistinct(tree);
      var ctx, t := Locate(Top, tree, n);
      Below(nodes, ctx, t);
    }

    lemma AllKnown()
      requires Valid()
      ensures forall n :: n in Contents() <==> n in Ids(tree)
      ensures forall n :: n in Contents() ==> n > 0 && n in nodes && nodes[n].s == n
      ensures 0 !in Ids(tree) && NoDuplicates(Contents())
    {
      ElemsDistinct(tree);
      RepIds(nodes, tree, 0);
      forall n | n in Contents() ensures n in nodes && nodes[n].s == n { MemberKnown(n); }
    }

    constructor (cmp: (K, K) -> int, nodes: Memory<K>)
      requires ENODE !in nodes
      ensures Valid() && Contents() == [] && this.nodes == nodes && this.cmp == cmp
    {
      this.cmp, this.nodes := cmp, nodes;
      root, size, tree := RB_NULL, 0, Leaf;
    }

    /** The owner of the memory writes a record that is not in the tree. */
    method Write(n: int, rec: NodeRec<K>)
      requires Valid() && n > 0 && n !in Contents()
      modifies this`nodes
      ensures Valid() && nodes == old(nodes)[n := rec]
    {
      ElemsIds(tree);
      nodes := nodes[n := rec];
      RepFrame(old(nodes), nodes, tree, 0);
    }
  }
}
