/** A medium chunk as the sequence of its units, and the views of that sequence that
    src/chunk_medium.c keeps in bitmaps, a tree and counters. */
module MediumUnits {

  /** A run of `len` pages from page `start` on. */
  datatype Block = Block(start: int, len: int, used: bool)

  /** `u` covers the pages from `a` up to, but not including, `b`, without gap or overlap. */
  ghost predicate Tiles(u: seq<Block>, a: int, b: int) {
    if u == [] then a == b
    else u[0].start == a && u[0].len > 0 && Tiles(u[1..], a + u[0].len, b)
  }

  ghost predicate Coalesced(u: seq<Block>) {
    |u| >= 2 ==> (u[0].used || u[1].used) && Coalesced(u[1..])
  }

  ghost function Starts(u: seq<Block>): set<int> {
    if u == [] then {} else {u[0].start} + Starts(u[1..])
  }

  ghost function UsedStarts(u: seq<Block>): set<int> {
    if u == [] then {} else (if u[0].used then {u[0].start} else {}) + UsedStarts(u[1..])
  }

  ghost function FreeStarts(u: seq<Block>): set<int> {
    if u == [] then {} else (if u[0].used then {} else {u[0].start}) + FreeStarts(u[1..])
  }

  /** What the users hold: start page to number of pages. */
  ghost function Live(u: seq<Block>): map<int, int> {
    if u == [] then map[] else (if u[0].used then map[u[0].start := u[0].len] else map[]) + Live(u[1..])
  }

  ghost function FreePages(u: seq<Block>): int {
    if u == [] then 0 else (if u[0].used then 0 else u[0].len) + FreePages(u[1..])
  }

  function Max(a: int, b: int): int { if a > b then a else b }

  ghost function LargestFree(u: seq<Block>): int {
    if u == [] then 0 else Max(if u[0].used then 0 else u[0].len, LargestFree(u[1..]))
  }

  // ----- every view respects concatenation -----

  lemma {:induction false} ViewsConcat(a: seq<Block>, b: seq<Block>)
    ensures Starts(a + b) == Starts(a) + Starts(b)
    ensures UsedStarts(a + b) == UsedStarts(a) + UsedStarts(b)
    ensures FreeStarts(a + b) == FreeStarts(a) + FreeStarts(b)
    ensures FreePages(a + b) == FreePages(a) + FreePages(b)
    ensures LargestFree(a + b) == Max(LargestFree(a), LargestFree(b))
    ensures LargestFree(a) >= 0
  {
    if a == [] {
      assert a + b == b;
      LargestNonneg(b);
    } else {
      ViewsConcat(a[1..], b);
      assert (a + b)[1..] == a[1..] + b;
    }
  }

  lemma {:induction false} LargestNonneg(u: seq<Block>)
    ensures LargestFree(u) >= 0
  {
    if u != [] { LargestNonneg(u[1..]); }
  }

  lemma {:induction false} LiveConcat(a: seq<Block>, b: seq<Block>)
    ensures Live(a + b) == Live(a) + Live(b)
  {
    if a == [] {
      assert a + b == b;
    } else {
      LiveConcat(a[1..], b);
      assert (a + b)[1..] == a[1..] + b;
    }
  }

  lemma {:induction false} TilesConcat(a: seq<Block>, b: seq<Block>, lo: int, mid: int, hi: int)
    requires Tiles(a, lo, mid)
    ensures Tiles(a + b, lo, hi) <==> Tiles(b, mid, hi)
  {
    if a == [] {
      assert a + b == b;
    } else {
      TilesConcat(a[1..], b, lo + a[0].len, mid, hi);
      assert (a + b)[1..] == a[1..] + b;
    }
  }

  lemma {:induction false} CoalescedConcat(a: seq<Block>, b: seq<Block>)
    ensures Coalesced(a + b) <==>
      Coalesced(a) && Coalesced(b) && (a != [] && b != [] ==> a[|a| - 1].used || b[0].used)
  {
    if a == [] {
      assert a + b == b;
    } else {
      CoalescedConcat(a[1..], b);
      assert (a + b)[1..] == a[1..] + b;
      if |a| == 1 { assert a[1..] == []; assert a[1..] + b == b; }
    }
  }

  // ----- tilings -----

  lemma {:induction false} TilesBounds(u: seq<Block>, a: int, b: int)
    requires Tiles(u, a, b)
    ensures a <= b && (u != [] ==> a < b && u[0].start == a)
    ensures forall p :: p in Starts(u) ==> a <= p < b
    ensures Starts(u) == UsedStarts(u) + FreeStarts(u) && UsedStarts(u) !! FreeStarts(u)
    ensures Live(u).Keys == UsedStarts(u)
    ensures FreePages(u) >= 0 && LargestFree(u) <= b - a && FreePages(u) <= b - a
  {
    if u != [] { TilesBounds(u[1..], a + u[0].len, b); }
  }

  lemma {:induction false} LastBlock(u: seq<Block>, a: int, b: int)
    requires Tiles(u, a, b) && u != []
    ensures var l := u[|u| - 1];
      Tiles(u[..|u| - 1], a, l.start) && l.start + l.len == b && l.len > 0 && l.start in Starts(u)
      && (l.used ==> l.start in UsedStarts(u)) && (!l.used ==> l.start in FreeStarts(u))
    ensures forall p :: p in Starts(u) ==> p <= u[|u| - 1].start
  {
    if |u| == 1 {
      assert u[1..] == [];
    } else {
      LastBlock(u[1..], a + u[0].len, b);
      assert u[..|u| - 1][1..] == u[1..][..|u| - 2];
    }
  }

  /** The block that starts at `p`, and what is before and after it. */
  lemma {:induction false} Locate(u: seq<Block>, a: int, b: int, p: int)
    returns (pre: seq<Block>, blk: Block, post: seq<Block>)
    requires Tiles(u, a, b) && p in Starts(u)
    ensures u == pre + [blk] + post && blk.start == p && blk.len > 0
    ensures Tiles(pre, a, p) && Tiles(post, p + blk.len, b)
  {
    if u[0].start == p {
      pre, blk, post := [], u[0], u[1..];
    } else {
      pre, blk, post := Locate(u[1..], a + u[0].len, b, p);
      pre := [u[0]] + pre;
      assert pre[1..] == u[1..][..|pre| - 1];
    }
  }

  /** Live blocks never overlap and stay inside the chunk. */
  lemma {:induction false} LiveDisjoint(u: seq<Block>, a: int, b: int, p: int, q: int)
    requires Tiles(u, a, b) && p in Live(u) && q in Live(u) && p < q
    ensures a <= p && p + Live(u)[p] <= q && q + Live(u)[q] <= b
  {
    var t := u[1..];
    TilesBounds(t, a + u[0].len, b);
    if p == u[0].start && u[0].used {
      assert q in Live(t);
      LiveBound(t, a + u[0].len, b, q);
    } else {
      LiveDisjoint(t, a + u[0].len, b, p, q);
    }
  }

  lemma {:induction false} LiveBound(u: seq<Block>, a: int, b: int, q: int)
    requires Tiles(u, a, b) && q in Live(u)
    ensures a <= q && Live(u)[q] > 0 && q + Live(u)[q] <= b
  {
    TilesBounds(u[1..], a + u[0].len, b);
    if q in Live(u[1..]) { LiveBound(u[1..], a + u[0].len, b, q); }
  }

  /** Pages are conserved: free pages and live pages make up the tiled range. */
  ghost function LivePages(u: seq<Block>): int {
    if u == [] then 0 else (if u[0].used then u[0].len else 0) + LivePages(u[1..])
  }

  lemma {:induction false} Conservation(u: seq<Block>, a: int, b: int)
    requires Tiles(u, a, b)
    ensures FreePages(u) + LivePages(u) == b - a
    ensures LivePages(u) >= 0 && (LivePages(u) == 0 <==> Live(u) == map[])
  {
    if u != [] {
      Conservation(u[1..], a + u[0].len, b);
      if u[0].used { assert u[0].start in Live(u); }
    }
  }

  /** A free first unit ends where the first live block starts, or at the end. */
  lemma FreeHeadEnd(u: seq<Block>, a: int, b: int)
    requires Tiles(u, a, b) && Coalesced(u) && u != [] && !u[0].used
    ensures var e := a + u[0].len;
      e <= b && (e < b ==> e in Live(u)) && forall p :: p in Live(u) ==> p >= e
  {
    TilesBounds(u[1..], a + u[0].len, b);
  }

  lemma UsedHead(u: seq<Block>)
    requires u != []
    ensures u[0].used ==> u[0].start in Live(u)
  {
  }

  /** Nothing live and no two free neighbours: one free unit is all there is. */
  lemma EmptyChunk(u: seq<Block>, a: int, b: int)
    requires Tiles(u, a, b) && Coalesced(u) && Live(u) == map[] && a < b
    ensures u == [Block(a, b - a, false)]
  {
    UsedHead(u);
    FreeHeadEnd(u, a, b);
    TilesBounds(u[1..], a + u[0].len, b);
  }

  /** The live map and the two shape rules determine the units. */
  lemma {:induction false} UnitsDetermined(u: seq<Block>, v: seq<Block>, a: int, b: int)
    requires Tiles(u, a, b) && Tiles(v, a, b) && Coalesced(u) && Coalesced(v) && Live(u) == Live(v)
    ensures u == v
    decreases |u|
  {
    if u != [] && v != [] {
      TilesBounds(u[1..], a + u[0].len, b);
      TilesBounds(v[1..], a + v[0].len, b);
      SameHead(u, v, a, b);
      var m := Live(u);
      assert Live(u[1..]) == m - {a} by { assert Live(u[1..]).Keys !! {a}; }
      assert Live(v[1..]) == m - {a} by { assert Live(v[1..]).Keys !! {a}; }
      UnitsDetermined(u[1..], v[1..], a + u[0].len, b);
      assert u == [u[0]] + u[1..] && v == [v[0]] + v[1..];
    } else {
      TilesBounds(u, a, b);
      TilesBounds(v, a, b);
    }
  }

  lemma SameHead(u: seq<Block>, v: seq<Block>, a: int, b: int)
    requires Tiles(u, a, b) && Tiles(v, a, b) && Coalesced(u) && Coalesced(v) && Live(u) == Live(v) && u != []
    requires v != []
    ensures u[0] == v[0]
  {
    TilesBounds(u[1..], a + u[0].len, b);
    TilesBounds(v[1..], a + v[0].len, b);
    assert u[0].used <==> a in Live(u);
    assert v[0].used <==> a in Live(v);
    if !u[0].used {
      FreeHeadEnd(u, a, b);
      FreeHeadEnd(v, a, b);
    }
  }

  // ----- one allocation -----

  lemma ViewsOfThree(pre: seq<Block>, mid: seq<Block>, post: seq<Block>)
    ensures var u := pre + mid + post;
      && Starts(u) == Starts(pre) + Starts(mid) + Starts(post)
      && UsedStarts(u) == UsedStarts(pre) + UsedStarts(mid) + UsedStarts(post)
      && FreeStarts(u) == FreeStarts(pre) + FreeStarts(mid) + FreeStarts(post)
      && Live(u) == Live(pre) + Live(mid) + Live(post)
      && FreePages(u) == FreePages(pre) + FreePages(mid) + FreePages(post)
      && LargestFree(u) == Max(Max(LargestFree(pre), LargestFree(mid)), LargestFree(post))
  {
    ViewsConcat(pre + mid, post);
    ViewsConcat(pre, mid);
    LiveConcat(pre + mid, post);
    LiveConcat(pre, mid);
  }

  lemma ShapeOfThree(pre: seq<Block>, mid: seq<Block>, post: seq<Block>, a: int, p: int, q: int, b: int)
    requires Tiles(pre, a, p) && Tiles(mid, p, q) && Tiles(post, q, b) && mid != []
    ensures Tiles(pre + mid + post, a, b)
    ensures Coalesced(pre + mid + post) <==> (
      && Coalesced(pre) && Coalesced(mid) && Coalesced(post)
      && (pre != [] ==> pre[|pre| - 1].used || mid[0].used)
      && (post != [] ==> mid[|mid| - 1].used || post[0].used))
  {
    TilesConcat(pre, mid, a, p, q);
    TilesConcat(pre + mid, post, a, q, b);
    CoalescedConcat(pre, mid);
    CoalescedConcat(pre + mid, post);
    assert (pre + mid)[|pre + mid| - 1] == mid[|mid| - 1];
  }

  ghost function CarvedMid(s: int, len: int, size: int): seq<Block> {
    [Block(s, size, true)] + if len > size then [Block(s + size, len - size, false)] else []
  }

  lemma CarvedMidViews(s: int, len: int, size: int)
    requires 0 < size <= len
    ensures var m, r := CarvedMid(s, len, size), if len > size then {s + size} else {};
      && m != [] && m[0].used && Coalesced(m) && Tiles(m, s, s + len) && (len > size ==> !m[|m| - 1].used)
      && (len == size ==> m[|m| - 1].used)
      && Starts(m) == {s} + r && UsedStarts(m) == {s} && FreeStarts(m) == r
      && Live(m) == map[s := size] && FreePages(m) == len - size && LargestFree(m) == len - size
  {
    var m := CarvedMid(s, len, size);
    assert m[0] == Block(s, size, true);
    if len > size {
      OneBlockViews(Block(s + size, len - size, false));
      assert m[1..] == [Block(s + size, len - size, false)];
    } else {
      assert m[1..] == [];
    }
  }

  lemma OneBlockViews(blk: Block)
    ensures var u := [blk];
      && (blk.len > 0 ==> Tiles(u, blk.start, blk.start + blk.len)) && Coalesced(u)
      && Starts(u) == {blk.start} && UsedStarts(u) == (if blk.used then {blk.start} else {})
      && FreeStarts(u) == (if blk.used then {} else {blk.start})
      && Live(u) == (if blk.used then map[blk.start := blk.len] else map[])
      && FreePages(u) == (if blk.used then 0 else blk.len)
      && (blk.len >= 0 ==> LargestFree(u) == if blk.used then 0 else blk.len)
  {
    assert [blk][1..] == [];
  }

  /** What an allocation does to the units. */
  lemma Carve(pre: seq<Block>, s: int, len: int, size: int, post: seq<Block>, a: int, b: int)
    requires Tiles(pre, a, s) && Tiles(post, s + len, b) && 0 < size <= len
    requires Coalesced(pre + [Block(s, len, false)] + post)
    ensures var u, v, rest := pre + [Block(s, len, false)] + post, pre + CarvedMid(s, len, size) + post,
      if len > size then {s + size} else {};
      && Tiles(v, a, b) && Coalesced(v)
      && Starts(v) == Starts(u) + rest && rest !! Starts(u)
      && UsedStarts(v) == UsedStarts(u) + {s} && s in FreeStarts(u) && s !in UsedStarts(u)
      && FreeStarts(v) == FreeStarts(u) + rest - {s}
      && s !in Live(u) && Live(v) == Live(u)[s := size]
      && FreePages(v) == FreePages(u) - size
      && LargestFree(u) == Max(Max(LargestFree(pre), len), LargestFree(post))
      && LargestFree(v) == Max(Max(LargestFree(pre), len - size), LargestFree(post))
  {
    hide Tiles, Coalesced, Starts, UsedStarts, FreeStarts, Live, FreePages, LargestFree;
    var m := CarvedMid(s, len, size);
    CarvedMidViews(s, len, size);
    OneBlockViews(Block(s, len, false));
    ViewsOfThree(pre, [Block(s, len, false)], post);
    ViewsOfThree(pre, m, post);
    TilesBounds(pre, a, s);
    TilesBounds(post, s + len, b);
    ShapeOfThree(pre, [Block(s, len, false)], post, a, s, s + len, b);
    ShapeOfThree(pre, m, post, a, s, s + len, b);
    CarvedLive(Live(pre), Live(post), s, size);
  }

  lemma CarvedLive(l: map<int, int>, r: map<int, int>, s: int, size: int)
    requires s !in l && s !in r
    ensures l + map[s := size] + r == (l + map[] + r)[s := size]
  {
  }

  // ----- one deallocation -----

  /** The unit that results when `blk` is freed between `pre` and `post`, the two ends that
      are left, and the starts that disappear into it. */
  datatype Merged = Merged(pre: seq<Block>, unit: Block, post: seq<Block>, gone: set<int>)

  ghost function MergeNext(blk: Block, post: seq<Block>): (Block, seq<Block>, set<int>) {
    if post != [] && !post[0].used then (Block(blk.start, blk.len + post[0].len, false), post[1..], {post[0].start})
    else (Block(blk.start, blk.len, false), post, {})
  }

  ghost function MergePrev(blk: Block, pre: seq<Block>): (Block, seq<Block>, set<int>) {
    if pre != [] && !pre[|pre| - 1].used
    then (Block(pre[|pre| - 1].start, blk.len + pre[|pre| - 1].len, false), pre[..|pre| - 1], {pre[|pre| - 1].start})
    else (blk, pre, {})
  }

  ghost function Merge(pre: seq<Block>, blk: Block, post: seq<Block>): Merged {
    var (b1, post', g1) := MergeNext(blk, post);
    var (b2, pre', g2) := MergePrev(b1, pre);
    Merged(pre', b2, post', g1 + g2)
  }

  lemma MergeNextViews(blk: Block, post: seq<Block>, b: int)
    requires blk.len > 0 && Tiles(post, blk.start + blk.len, b) && Coalesced(post)
    ensures var (b1, post', gone) := MergeNext(blk, post);
      && b1.start == blk.start && b1.len >= blk.len && !b1.used
      && Tiles(post', b1.start + b1.len, b) && Coalesced(post') && (post' != [] ==> post'[0].used)
      && Starts(post) == Starts(post') + gone && FreeStarts(post) == FreeStarts(post') + gone
      && UsedStarts(post) == UsedStarts(post')
      && gone !! Starts(post') && Live(post) == Live(post') && FreePages(post) + blk.len == FreePages(post') + b1.len
      && Max(LargestFree(post), b1.len) == Max(LargestFree(post'), b1.len)
  {
    if post != [] {
      TilesBounds(post[1..], post[0].start + post[0].len, b);
      if !post[0].used { assert Live(post) == Live(post[1..]); }
    }
  }

  lemma MergePrevViews(blk: Block, pre: seq<Block>, a: int)
    requires blk.len > 0 && !blk.used && Tiles(pre, a, blk.start) && Coalesced(pre)
    ensures var (b1, pre', gone) := MergePrev(blk, pre);
      && b1.start + b1.len == blk.start + blk.len && b1.len >= blk.len && !b1.used
      && Tiles(pre', a, b1.start) && Coalesced(pre') && (pre' != [] ==> pre'[|pre'| - 1].used)
      && Starts(pre) == Starts(pre') + gone && FreeStarts(pre) == FreeStarts(pre') + gone
      && UsedStarts(pre) == UsedStarts(pre')
      && gone !! Starts(pre') && Live(pre) == Live(pre') && FreePages(pre) + blk.len == FreePages(pre') + b1.len
      && Max(LargestFree(pre), b1.len) == Max(LargestFree(pre'), b1.len)
  {
    hide Tiles, Coalesced, Starts, UsedStarts, FreeStarts, Live, FreePages, LargestFree;
    if pre != [] {
      var l, pre' := pre[|pre| - 1], pre[..|pre| - 1];
      assert pre == pre' + [l];
      LastBlock(pre, a, blk.start);
      ViewsConcat(pre', [l]);
      LiveConcat(pre', [l]);
      OneBlockViews(l);
      CoalescedConcat(pre', [l]);
      TilesBounds(pre', a, l.start);
    }
  }

  ghost predicate CanRelease(pre: seq<Block>, blk: Block, post: seq<Block>, a: int, b: int) {
    && blk.used && blk.len > 0 && Tiles(pre, a, blk.start) && Tiles(post, blk.start + blk.len, b)
    && Coalesced(pre + [blk] + post)
  }

  ghost function Released(pre: seq<Block>, blk: Block, post: seq<Block>): seq<Block> {
    var m := Merge(pre, blk, post);
    m.pre + [m.unit] + m.post
  }

  lemma MergeIs(pre: seq<Block>, blk: Block, post: seq<Block>)
    ensures var (b1, post', g1) := MergeNext(blk, post); var (b2, pre', g2) := MergePrev(b1, pre);
      Merge(pre, blk, post) == Merged(pre', b2, post', g1 + g2) && Released(pre, blk, post) == pre' + [b2] + post'
  {
  }

  lemma MergeNextIs(blk: Block, post: seq<Block>, b: int)
    requires blk.len > 0 && Tiles(post, blk.start + blk.len, b)
    ensures var (b1, post', g1) := MergeNext(blk, post);
      b1 == Block(blk.start, b1.len, false) && forall p :: p in g1 ==> blk.start < p < b1.start + b1.len
  {
  }

  lemma MergePrevIs(blk: Block, pre: seq<Block>, a: int)
    requires blk.len > 0 && Tiles(pre, a, blk.start)
    ensures var (b1, pre', g1) := MergePrev(blk, pre); forall p :: p in g1 ==> b1.start <= p < blk.start
  {
    if pre != [] { LastBlock(pre, a, blk.start); }
  }

  lemma CanParts(pre: seq<Block>, blk: Block, post: seq<Block>, a: int, b: int)
    requires CanRelease(pre, blk, post, a, b)
    ensures blk.used && blk.len > 0 && Tiles(pre, a, blk.start) && Tiles(post, blk.start + blk.len, b)
    ensures Coalesced(pre + [blk] + post)
  {
  }

  lemma MaxIs()
    ensures forall a, b :: Max(a, b) == if a > b then a else b
  {
  }

  /** What a deallocation does to the units ... */
  lemma ReleaseShape(pre: seq<Block>, blk: Block, post: seq<Block>, a: int, b: int)
    requires CanRelease(pre, blk, post, a, b)
    ensures var u, v, m := pre + [blk] + post, Released(pre, blk, post), Merge(pre, blk, post);
      && Tiles(v, a, b) && Coalesced(v) && !m.unit.used && m.unit.len >= blk.len
      && blk.start in Live(u) && Live(u)[blk.start] == blk.len && Live(v) == Live(u) - {blk.start}
      && FreePages(v) == FreePages(u) + blk.len
      && LargestFree(v) == Max(LargestFree(u), m.unit.len)
  {
    ReleaseTiles(pre, blk, post, a, b);
    ReleaseLive(pre, blk, post, a, b);
  }

  lemma ReleaseTiles(pre: seq<Block>, blk: Block, post: seq<Block>, a: int, b: int)
    requires CanRelease(pre, blk, post, a, b)
    ensures var u, v, m := pre + [blk] + post, Released(pre, blk, post), Merge(pre, blk, post);
      && Tiles(v, a, b) && Coalesced(v) && !m.unit.used && m.unit.len >= blk.len
      && FreePages(v) == FreePages(u) + blk.len && LargestFree(v) == Max(LargestFree(u), m.unit.len)
  {
    hide *;
    MergeIs(pre, blk, post);
    CanParts(pre, blk, post, a, b);
    var (b1, post', g1) := MergeNext(blk, post);
    var (b2, pre', g2) := MergePrev(b1, pre);
    OneBlockViews(blk);
    OneBlockViews(b2);
    ShapeOfThree(pre, [blk], post, a, blk.start, blk.start + blk.len, b);
    MergeNextViews(blk, post, b);
    MergePrevViews(b1, pre, a);
    ViewsOfThree(pre, [blk], post);
    ViewsOfThree(pre', [b2], post');
    ShapeOfThree(pre', [b2], post', a, b2.start, b2.start + b2.len, b);
    MaxIs();
  }

  lemma ReleaseLive(pre: seq<Block>, blk: Block, post: seq<Block>, a: int, b: int)
    requires CanRelease(pre, blk, post, a, b)
    ensures var u, v := pre + [blk] + post, Released(pre, blk, post);
      blk.start in Live(u) && Live(u)[blk.start] == blk.len && Live(v) == Live(u) - {blk.start}
  {
    hide *;
    MergeIs(pre, blk, post);
    CanParts(pre, blk, post, a, b);
    var (b1, post', g1) := MergeNext(blk, post);
    var (b2, pre', g2) := MergePrev(b1, pre);
    OneBlockViews(blk);
    OneBlockViews(b2);
    ShapeOfThree(pre, [blk], post, a, blk.start, blk.start + blk.len, b);
    MergeNextViews(blk, post, b);
    MergePrevViews(b1, pre, a);
    ViewsOfThree(pre, [blk], post);
    ViewsOfThree(pre', [b2], post');
    TilesBounds(pre, a, blk.start);
    TilesBounds(post, blk.start + blk.len, b);
  }

  /** ... and to the sets of start pages. */
  lemma ReleaseStarts(pre: seq<Block>, blk: Block, post: seq<Block>, a: int, b: int)
    requires CanRelease(pre, blk, post, a, b)
    ensures var u, v, m := pre + [blk] + post, Released(pre, blk, post), Merge(pre, blk, post);
      && Starts(v) == Starts(u) - {blk.start} - m.gone + {m.unit.start}
      && UsedStarts(v) == UsedStarts(u) - {blk.start} && blk.start in UsedStarts(u)
      && FreeStarts(v) == FreeStarts(u) - m.gone + {m.unit.start} && m.unit.start !in FreeStarts(u) - m.gone
      && m.gone <= FreeStarts(u) && m.unit.start !in Starts(u) - {blk.start} - m.gone
  {
    hide *;
    MergeIs(pre, blk, post);
    CanParts(pre, blk, post, a, b);
    var (b1, post', g1) := MergeNext(blk, post);
    var (b2, pre', g2) := MergePrev(b1, pre);
    OneBlockViews(blk);
    OneBlockViews(b2);
    ShapeOfThree(pre, [blk], post, a, blk.start, blk.start + blk.len, b);
    MergeNextViews(blk, post, b);
    MergePrevViews(b1, pre, a);
    ViewsOfThree(pre, [blk], post);
    ViewsOfThree(pre', [b2], post');
    TilesBounds(pre, a, blk.start);
    TilesBounds(post, blk.start + blk.len, b);
    TilesBounds(pre', a, b2.start);
    TilesBounds(post', b2.start + b2.len, b);
    RangesDisjoint(Starts(pre'), g1, blk.start);
    RangesDisjoint(g2, Starts(post'), blk.start);
    SetsOfRelease(Starts(pre'), Starts(post'), g1, g2, blk.start, b2.start);
    SetsOfRelease(FreeStarts(pre'), FreeStarts(post'), g1, g2, blk.start, b2.start);
  }

  lemma RangesDisjoint(p: set<int>, q: set<int>, m: int)
    requires (forall x :: x in p ==> x < m) && (forall x :: x in q ==> x >= m)
    ensures p !! q
  {
    forall x: int | x in p ensures x !in q {}
  }

  lemma SetsOfRelease(p: set<int>, q: set<int>, g1: set<int>, g2: set<int>, s: int, t: int)
    requires s !in p && s !in q && g1 !! p && g1 !! q && g2 !! p && g2 !! q && t !in p && t !in q
    ensures p + {t} + q == (p + g2) + {s} + (q + g1) - {s} - (g1 + g2) + {t}
    ensures s !in g1 && s !in g2 ==> p + {t} + q == (p + g2) + {} + (q + g1) - (g1 + g2) + {t}
    ensures t !in (p + g2) + {} + (q + g1) - (g1 + g2) && t !in (p + g2) + {s} + (q + g1) - {s} - (g1 + g2)
  {
  }

  /** Around a used block: the unit starts above it begin where it ends, those below it at
      the last block before it. */
  lemma Neighbours(pre: seq<Block>, blk: Block, post: seq<Block>, a: int, b: int)
    requires CanRelease(pre, blk, post, a, b)
    ensures var u := pre + [blk] + post; var s := Starts(u);
      && blk.start in s && a <= blk.start < blk.start + blk.len <= b
      && (forall p :: p in s && p > blk.start ==> p >= blk.start + blk.len)
    ensures post == [] ==> blk.start + blk.len == b
    ensures post != [] ==> var u, n := pre + [blk] + post, post[0];
      && n.start == blk.start + blk.len < b && n.start in Starts(u)
      && (n.start in UsedStarts(u) <==> n.used) && (n.start in FreeStarts(u) <==> !n.used)
    ensures pre == [] ==> forall p :: p in Starts(pre + [blk] + post) ==> p >= blk.start
    ensures pre != [] ==> var u, l := pre + [blk] + post, pre[|pre| - 1];
      && a <= l.start < blk.start && l.start in Starts(u)
      && (forall p :: p in Starts(u) && p < blk.start ==> p <= l.start)
      && (l.start in UsedStarts(u) <==> l.used) && (l.start in FreeStarts(u) <==> !l.used)
  {
    hide *;
    ViewsAround(pre, blk, post, a, b);
    NextBlock(post, blk.start + blk.len, b);
    if pre != [] { LastBlock(pre, a, blk.start); }
  }

  lemma NextBlock(post: seq<Block>, a: int, b: int)
    requires Tiles(post, a, b)
    ensures if post == [] then a == b
      else
        && post[0].start == a < b && a in Starts(post)
        && (a in UsedStarts(post) <==> post[0].used) && (a in FreeStarts(post) <==> !post[0].used)
  {
    if post != [] { TilesBounds(post[1..], post[0].start + post[0].len, b); }
  }

  /** The views of the units around a used block, and where they lie. */
  lemma ViewsAround(pre: seq<Block>, blk: Block, post: seq<Block>, a: int, b: int)
    requires CanRelease(pre, blk, post, a, b)
    ensures var u := pre + [blk] + post;
      && Starts(u) == Starts(pre) + {blk.start} + Starts(post)
      && UsedStarts(u) == UsedStarts(pre) + {blk.start} + UsedStarts(post)
      && FreeStarts(u) == FreeStarts(pre) + FreeStarts(post)
    ensures Tiles(pre, a, blk.start) && Tiles(post, blk.start + blk.len, b) && blk.used && blk.len > 0 && a <= blk.start
    ensures blk.start + blk.len <= b
    ensures (forall p :: p in Starts(pre) ==> a <= p < blk.start)
    ensures (forall p :: p in Starts(post) ==> blk.start + blk.len <= p < b)
    ensures (pre == [] ==> Starts(pre) == {}) && Starts(pre) == UsedStarts(pre) + FreeStarts(pre)
    ensures UsedStarts(pre) !! FreeStarts(pre)
    ensures Starts(post) == UsedStarts(post) + FreeStarts(post) && UsedStarts(post) !! FreeStarts(post)
  {
    assert Starts([]) == {};
    hide *;
    CanParts(pre, blk, post, a, b);
    SetsAround(pre, blk, post);
    TilesBounds(pre, a, blk.start);
    TilesBounds(post, blk.start + blk.len, b);
  }

  lemma SetsAround(pre: seq<Block>, blk: Block, post: seq<Block>)
    requires blk.used
    ensures var u := pre + [blk] + post;
      && Starts(u) == Starts(pre) + {blk.start} + Starts(post)
      && UsedStarts(u) == UsedStarts(pre) + {blk.start} + UsedStarts(post)
      && FreeStarts(u) == FreeStarts(pre) + FreeStarts(post)
  {
    hide *;
    ViewsOfThree(pre, [blk], post);
    OneBlockViews(blk);
  }

  /** The two halves of a merge. */
  lemma MergeParts(pre: seq<Block>, blk: Block, post: seq<Block>, a: int, b: int)
    requires CanRelease(pre, blk, post, a, b)
    ensures var (b1, post', g1) := MergeNext(blk, post); var (b2, pre', g2) := MergePrev(b1, pre);
      && Merge(pre, blk, post) == Merged(pre', b2, post', g1 + g2)
      && b1 == Block(blk.start, b1.len, false) && (forall p :: p in g1 ==> p > blk.start)
      && (forall p :: p in g2 ==> p < blk.start)
      && a <= b2.start && 0 < b2.len && b2.start + b2.len <= b && !b2.used
      && (forall p :: p in Merge(pre, blk, post).gone ==> b2.start <= p < b2.start + b2.len)
      && b2.start <= blk.start < b2.start + b2.len
      && Tiles(pre', a, b2.start) && Tiles(post', b2.start + b2.len, b)
  {
    hide *;
    MergeIs(pre, blk, post);
    CanParts(pre, blk, post, a, b);
    MergeNextIs(blk, post, b);
    OneBlockViews(blk);
    ShapeOfThree(pre, [blk], post, a, blk.start, blk.start + blk.len, b);
    MergeNextViews(blk, post, b);
    var (b1, post', g1) := MergeNext(blk, post);
    MergePrevViews(b1, pre, a);
    var (b2, pre', g2) := MergePrev(b1, pre);
    TilesBounds(pre, a, blk.start);
    TilesBounds(pre', a, b2.start);
    TilesBounds(post', b2.start + b2.len, b);
    MergePrevIs(b1, pre, a);
  }

  /** Where a merge leaves its unit and the units around it. */
  lemma MergeBounds(pre: seq<Block>, blk: Block, post: seq<Block>, a: int, b: int)
    requires CanRelease(pre, blk, post, a, b)
    ensures var m := Merge(pre, blk, post);
      && a <= m.unit.start && 0 < m.unit.len && m.unit.start + m.unit.len <= b && !m.unit.used
      && (forall p :: p in m.gone ==> m.unit.start <= p < m.unit.start + m.unit.len)
      && m.unit.start <= blk.start < m.unit.start + m.unit.len
      && Tiles(m.pre, a, m.unit.start) && Tiles(m.post, m.unit.start + m.unit.len, b)
  {
    hide *;
    MergeIs(pre, blk, post);
    MergeParts(pre, blk, post, a, b);
  }

  /** The views of a chunk with one more block in front. */
  lemma ConsViews(blk: Block, u: seq<Block>)
    ensures var v := [blk] + u;
      && FreeStarts(v) == (if blk.used then {} else {blk.start}) + FreeStarts(u)
      && Live(v) == (if blk.used then map[blk.start := blk.len] else map[]) + Live(u)
      && LargestFree(v) == Max(if blk.used then 0 else blk.len, LargestFree(u))
      && (Coalesced(v) <==> Coalesced(u) && (u == [] || blk.used || u[0].used))
      && forall a, b :: Tiles(v, a, b) <==> blk.start == a && blk.len > 0 && Tiles(u, a + blk.len, b)
  {
    assert ([blk] + u)[1..] == u;
  }
}
