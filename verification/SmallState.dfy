/** All small runs together, as values: which pages of which chunks are runs, what is free in them,
    and which runs each size class still offers. */
module SmallState {
  import opened Basics
  import opened SmallRun

  /** SHM_CHUNK_RUN_SIZE */
  const PAGES: int := 256

  /** `runs` and their free lists by position, the used pages of each chunk, and per size class the
      runs that are not full. */
  datatype Small = Small(runs: map<int, Run>, lists: map<int, seq<int>>, pages: map<int, set<nat>>,
                         members: seq<set<int>>)

  /** Offset of a page in its chunk, to position. */
  function PagePos(c: int, i: nat): int { c + i * RUN_SIZE }

  ghost predicate InPage(p: int, c: int, i: nat) {
    c % CHUNK_SIZE == 0 && i < PAGES && p == PagePos(c, i)
  }

  /** A position is on one page only. */
  lemma PageUnique(p: int, c: int, i: nat, c': int, i': nat)
    requires InPage(p, c, i) && InPage(p, c', i')
    ensures c == c' && i == i'
  {
  }

  lemma PagesApart(p: int, c: int, i: nat, q: int, d: int, j: nat)
    requires InPage(p, c, i) && InPage(q, d, j) && p != q
    ensures p + RUN_SIZE <= q || q + RUN_SIZE <= p
  {
    Aligned(c, i);
    Aligned(d, j);
  }

  lemma Aligned(c: int, i: nat)
    requires c % CHUNK_SIZE == 0
    ensures PagePos(c, i) % RUN_SIZE == 0
  {
    assert c == RUN_SIZE * (256 * (c / CHUNK_SIZE));
  }

  ghost predicate RunAt(s: Small, p: int)
    requires p in s.runs && p in s.lists
  {
    var r := s.runs[p];
    && RunHolds(r, s.lists[p])
    && 1 <= r.confIndex < RUN_CONFIG_SIZE && r.elemsize == ELEM_SIZES[r.confIndex]
    && exists c, i :: c in s.pages && i in s.pages[c] && i > 0 && InPage(p, c, i)
  }

  ghost predicate ChunkAt(s: Small, c: int)
    requires c in s.pages
  {
    && c > 0 && c % CHUNK_SIZE == 0 && 0 in s.pages[c]
    && forall i :: i in s.pages[c] ==> i < PAGES && (i > 0 ==> PagePos(c, i) in s.runs)
  }

  ghost predicate Offered(r: Run, k: int) {
    r.confIndex == k && r.used < r.total
  }

  ghost predicate PoolAt(s: Small, k: int)
    requires 0 <= k < |s.members|
  {
    forall p :: p in s.members[k] <==> p in s.runs && Offered(s.runs[p], k)
  }

  /** Runs have whole free lists and lie in used pages; used pages are runs; a class offers exactly
      its runs that are not full. */
  ghost predicate SmallHolds(s: Small) {
    && s.lists.Keys == s.runs.Keys && |s.members| == RUN_CONFIG_SIZE
    && (forall p :: p in s.runs ==> RunAt(s, p))
    && (forall c :: c in s.pages ==> ChunkAt(s, c))
    && (forall k :: 0 <= k < RUN_CONFIG_SIZE ==> PoolAt(s, k))
  }

  /** A class keeps at most one run without live slots. */
  ghost predicate OneSpare(s: Small) {
    forall p, q ::
      p in s.runs && q in s.runs && s.runs[p].used == 0 && s.runs[q].used == 0
      && s.runs[p].confIndex == s.runs[q].confIndex
      ==> p == q
  }

  // ----- live blocks -----

  ghost predicate Block(s: Small, p: int, o: int) {
    p in s.runs && p in s.lists && s.runs[p].elemsize > 0 && o in LiveSlots(s.runs[p], s.lists[p])
  }

  /** Live blocks lie in their page behind its header, and no two of them overlap. */
  lemma BlocksApart(s: Small, p: int, o: int, q: int, u: int)
    requires SmallHolds(s) && Block(s, p, o) && Block(s, q, u) && (p != q || o != u)
    ensures RUN_HEADER_SIZE <= o && o + s.runs[p].elemsize <= RUN_SIZE
    ensures p + o + s.runs[p].elemsize <= q + u || q + u + s.runs[q].elemsize <= p + o
  {
    assert RunAt(s, p) && RunAt(s, q);
    hide RunHolds, InPage;
    BlockSlot(s.runs[p], s.lists[p], o);
    BlockSlot(s.runs[q], s.lists[q], u);
    SlotInPage(s.runs[p].elemsize, o);
    SlotInPage(s.runs[q].elemsize, u);
    if p != q {
      var c, i :| c in s.pages && i in s.pages[c] && i > 0 && InPage(p, c, i);
      var d, j :| d in s.pages && j in s.pages[d] && j > 0 && InPage(q, d, j);
      PagesApart(p, c, i, q, d, j);
    }
  }

  lemma BlockSlot(r: Run, l: seq<int>, o: int)
    requires r.elemsize > 0 && o in LiveSlots(r, l)
    ensures IsSlot(r.elemsize, o)
  {
  }

  // ----- steps -----

  ghost predicate CanTake(s: Small, p: int) {
    && p in s.runs && p in s.lists && s.lists[p] != []
    && s.runs[p].free in s.runs[p].words && 0 <= s.runs[p].confIndex < |s.members|
  }

  ghost function Take(s: Small, p: int): Small
    requires CanTake(s, p)
  {
    var r, k := TakeSlot(s.runs[p]), s.runs[p].confIndex;
    s.(runs := s.runs[p := r], lists := s.lists[p := s.lists[p][1..]],
       members := if r.used == r.total then s.members[k := s.members[k] - {p}] else s.members)
  }

  ghost function Give(s: Small, p: int, o: int): Small
    requires p in s.runs && p in s.lists && 0 <= s.runs[p].confIndex < |s.members|
  {
    var r, k := s.runs[p], s.runs[p].confIndex;
    s.(runs := s.runs[p := GiveSlot(r, o)], lists := s.lists[p := [o] + s.lists[p]],
       members := if r.used == r.total then s.members[k := s.members[k] + {p}] else s.members)
  }

  ghost function Drop(s: Small, p: int, c: int, i: nat): Small
    requires p in s.runs && c in s.pages && 0 <= s.runs[p].confIndex < |s.members|
  {
    var k := s.runs[p].confIndex;
    s.(runs := s.runs - {p}, lists := s.lists - {p}, pages := s.pages[c := s.pages[c] - {i}],
       members := s.members[k := s.members[k] - {p}])
  }

  ghost function Add(s: Small, c: int, i: nat, r: Run, l: seq<int>): Small
    requires c in s.pages && 0 <= r.confIndex < |s.members|
  {
    var p, k := PagePos(c, i), r.confIndex;
    s.(runs := s.runs[p := r], lists := s.lists[p := l], pages := s.pages[c := s.pages[c] + {i}],
       members := s.members[k := s.members[k] + {p}])
  }

  /** Run `p` of class `k` is on page `i` of chunk `c`. */
  ghost predicate Sits(s: Small, p: int, c: int, i: nat, k: int) {
    && p in s.runs && p in s.lists && s.runs[p].confIndex == k && 0 <= k < RUN_CONFIG_SIZE == |s.members|
    && c in s.pages && i > 0 && InPage(p, c, i) && 0 in s.pages[c] && i in s.pages[c]
  }

  /** The run is empty and its class offers another one. */
  ghost predicate Superfluous(s: Small, p: int) {
    && p in s.runs && s.runs[p].used == 0 && 0 <= s.runs[p].confIndex < |s.members|
    && |s.members[s.runs[p].confIndex]| > 1
  }

  lemma TakeHolds(s: Small, p: int)
    requires SmallHolds(s) && p in s.runs && s.runs[p].used < s.runs[p].total
    ensures CanTake(s, p) && SmallHolds(Take(s, p)) && 1 <= s.runs[p].confIndex < RUN_CONFIG_SIZE
    ensures p in s.members[s.runs[p].confIndex]
    ensures OneSpare(s) ==> OneSpare(Take(s, p))
    ensures var o := s.runs[p].free;
      o > 0 && !Block(s, p, o) && forall q, u :: Block(Take(s, p), q, u) <==> Block(s, q, u) || (q == p && u == o)
  {
    hide RunHolds, LiveSlots;
    assert RunAt(s, p);
    assert RunHolds(s.runs[p], s.lists[p]);
    TakeSlotHolds(s.runs[p], s.lists[p]);
    SlotInPage(s.runs[p].elemsize, s.runs[p].free);
    var s' := Take(s, p);
    UsedCounts(s.runs[p], s.lists[p]);
    assert PoolAt(s, s.runs[p].confIndex);
    forall q | q in s'.runs ensures RunAt(s', q) { assert RunAt(s, q); }
    forall c | c in s'.pages ensures ChunkAt(s', c) { assert ChunkAt(s, c); }
    forall k | 0 <= k < RUN_CONFIG_SIZE ensures PoolAt(s', k) { assert PoolAt(s, k); }
  }

  lemma GiveHolds(s: Small, p: int, o: int)
    requires SmallHolds(s) && Block(s, p, o)
    ensures 1 <= s.runs[p].confIndex < RUN_CONFIG_SIZE && SmallHolds(Give(s, p, o)) && s.runs[p].used > 0
    ensures forall q, u :: Block(Give(s, p, o), q, u) <==> Block(s, q, u) && !(q == p && u == o)
  {
    hide RunHolds, LiveSlots;
    assert RunAt(s, p);
    assert RunHolds(s.runs[p], s.lists[p]);
    GiveSlotHolds(s.runs[p], s.lists[p], o);
    var s' := Give(s, p, o);
    UsedCounts(s.runs[p], s.lists[p]);
    forall q | q in s'.runs ensures RunAt(s', q) { assert RunAt(s, q); }
    forall c | c in s'.pages ensures ChunkAt(s', c) { assert ChunkAt(s, c); }
    forall k | 0 <= k < RUN_CONFIG_SIZE ensures PoolAt(s', k) { assert PoolAt(s, k); }
  }

  /** A run goes that is not full, with its page. */
  lemma DropHolds(s: Small, p: int, c: int, i: nat)
    requires SmallHolds(s) && p in s.runs && s.runs[p].used == 0 && c in s.pages && i > 0 && InPage(p, c, i)
    ensures 1 <= s.runs[p].confIndex < RUN_CONFIG_SIZE && SmallHolds(Drop(s, p, c, i)) && i in s.pages[c]
    ensures forall q, u :: Block(Drop(s, p, c, i), q, u) <==> Block(s, q, u)
  {
    hide RunHolds, LiveSlots;
    assert RunAt(s, p);
    assert RunHolds(s.runs[p], s.lists[p]);
    UsedCounts(s.runs[p], s.lists[p]);
    var s' := Drop(s, p, c, i);
    forall q | q in s'.runs ensures RunAt(s', q) { DroppedRun(s, p, c, i, q); }
    forall d | d in s'.pages ensures ChunkAt(s', d) { DroppedChunk(s, p, c, i, d); }
    forall k | 0 <= k < RUN_CONFIG_SIZE ensures PoolAt(s', k) { assert PoolAt(s, k); }
    var d, j :| d in s.pages && j in s.pages[d] && j > 0 && InPage(p, d, j);
    PageUnique(p, c, i, d, j);
  }

  lemma DroppedRun(s: Small, p: int, c: int, i: nat, q: int)
    requires SmallHolds(s) && p in s.runs && c in s.pages && i > 0 && InPage(p, c, i) && q in s.runs && q != p
    requires 0 <= s.runs[p].confIndex < |s.members|
    ensures q in Drop(s, p, c, i).runs && q in Drop(s, p, c, i).lists && RunAt(Drop(s, p, c, i), q)
  {
    hide RunHolds;
    var s' := Drop(s, p, c, i);
    assert RunAt(s, q);
    var d, j :| d in s.pages && j in s.pages[d] && j > 0 && InPage(q, d, j);
    assert d != c || j != i;
    assert d in s'.pages && j in s'.pages[d] && InPage(q, d, j);
  }

  lemma DroppedChunk(s: Small, p: int, c: int, i: nat, d: int)
    requires SmallHolds(s) && p in s.runs && c in s.pages && i > 0 && InPage(p, c, i) && d in s.pages
    requires 0 <= s.runs[p].confIndex < |s.members|
    ensures d in Drop(s, p, c, i).pages && ChunkAt(Drop(s, p, c, i), d)
  {
    hide RunHolds;
    var s' := Drop(s, p, c, i);
    assert ChunkAt(s, d);
    forall j | j in s'.pages[d] && j > 0 ensures PagePos(d, j) in s'.runs {
      if PagePos(d, j) == p { PageUnique(p, c, i, d, j); }
    }
  }

  /** A new run on an unused page. */
  lemma AddHolds(s: Small, c: int, i: nat, r: Run, l: seq<int>)
    requires SmallHolds(s) && c in s.pages && 0 < i < PAGES && i !in s.pages[c]
    requires RunHolds(r, l) && 1 <= r.confIndex < RUN_CONFIG_SIZE && r.elemsize == ELEM_SIZES[r.confIndex]
    requires r.used == 0
    ensures PagePos(c, i) !in s.runs && SmallHolds(Add(s, c, i, r, l))
    ensures forall q, u :: Block(Add(s, c, i, r, l), q, u) <==> Block(s, q, u)
    ensures OneSpare(s) && (forall q :: q in s.runs && s.runs[q].confIndex == r.confIndex ==> s.runs[q].used != 0) ==>
      OneSpare(Add(s, c, i, r, l))
  {
    hide RunHolds, LiveSlots;
    var p := PagePos(c, i);
    UsedCounts(r, l);
    assert p !in s.runs by { PageFree(s, c, i); }
    var s' := Add(s, c, i, r, l);
    forall q | q in s'.runs ensures RunAt(s', q) { AddedRun(s, c, i, r, l, q); }
    forall d | d in s'.pages ensures ChunkAt(s', d) { assert ChunkAt(s, d); }
    forall k | 0 <= k < RUN_CONFIG_SIZE ensures PoolAt(s', k) { assert PoolAt(s, k); }
  }

  lemma PageFree(s: Small, c: int, i: nat)
    requires SmallHolds(s) && c in s.pages && i < PAGES && i !in s.pages[c]
    ensures PagePos(c, i) !in s.runs
  {
    hide RunHolds;
    assert ChunkAt(s, c);
    var p := PagePos(c, i);
    if p in s.runs {
      assert RunAt(s, p);
      var d, j :| d in s.pages && j in s.pages[d] && j > 0 && InPage(p, d, j);
      PageUnique(p, c, i, d, j);
    }
  }

  lemma AddedRun(s: Small, c: int, i: nat, r: Run, l: seq<int>, q: int)
    requires SmallHolds(s) && c in s.pages && 0 < i < PAGES && i !in s.pages[c]
    requires RunHolds(r, l) && 1 <= r.confIndex < RUN_CONFIG_SIZE && r.elemsize == ELEM_SIZES[r.confIndex]
    requires q in Add(s, c, i, r, l).runs
    ensures RunAt(Add(s, c, i, r, l), q)
  {
    hide RunHolds;
    var s' := Add(s, c, i, r, l);
    assert ChunkAt(s, c);
    if q == PagePos(c, i) {
      assert c in s'.pages && i in s'.pages[c] && InPage(q, c, i);
    } else {
      assert RunAt(s, q);
      var d, j :| d in s.pages && j in s.pages[d] && j > 0 && InPage(q, d, j);
      assert d in s'.pages && j in s'.pages[d] && InPage(q, d, j);
    }
  }

  /** A new chunk: only its header page is used. */
  lemma NewChunkHolds(s: Small, c: int)
    requires SmallHolds(s) && c !in s.pages && c > 0 && c % CHUNK_SIZE == 0
    ensures SmallHolds(s.(pages := s.pages[c := {0}]))
  {
    hide RunHolds;
    var s' := s.(pages := s.pages[c := {0}]);
    forall q | q in s'.runs ensures RunAt(s', q) {
      assert RunAt(s, q);
      var d, j :| d in s.pages && j in s.pages[d] && j > 0 && InPage(q, d, j);
      assert d in s'.pages && j in s'.pages[d] && InPage(q, d, j);
    }
    forall d | d in s'.pages ensures ChunkAt(s', d) { if d != c { assert ChunkAt(s, d); } }
    forall k | 0 <= k < RUN_CONFIG_SIZE ensures PoolAt(s', k) { assert PoolAt(s, k); }
  }

  /** A chunk goes that has no run. */
  lemma DropChunkHolds(s: Small, c: int)
    requires SmallHolds(s) && c in s.pages && s.pages[c] == {0}
    ensures var s' := s.(pages := s.pages - {c});
      SmallHolds(s') && (forall q, u :: Block(s', q, u) <==> Block(s, q, u)) && (OneSpare(s) ==> OneSpare(s'))
  {
    hide RunHolds;
    var s' := s.(pages := s.pages - {c});
    forall q | q in s'.runs ensures RunAt(s', q) {
      assert RunAt(s, q);
      var d, j :| d in s.pages && j in s.pages[d] && j > 0 && InPage(q, d, j);
      assert d in s'.pages && j in s'.pages[d] && InPage(q, d, j);
    }
    forall d | d in s'.pages ensures ChunkAt(s', d) { assert ChunkAt(s, d); }
    forall k | 0 <= k < RUN_CONFIG_SIZE ensures PoolAt(s', k) { assert PoolAt(s, k); }
  }

  lemma ChunkFacts(s: Small, c: int)
    requires SmallHolds(s) && c in s.pages
    ensures c > 0 && 0 in s.pages[c] && |s.members| == RUN_CONFIG_SIZE
    ensures forall k, p :: 0 <= k < RUN_CONFIG_SIZE && p in s.members[k] ==> p in s.runs
  {
    assert ChunkAt(s, c);
    forall k, p | 0 <= k < RUN_CONFIG_SIZE && p in s.members[k] ensures p in s.runs { assert PoolAt(s, k); }
  }

  /** A class that offers nothing has no run without live slots. */
  lemma NoSpare(s: Small, k: int)
    requires SmallHolds(s) && 0 <= k < RUN_CONFIG_SIZE
    ensures s.members[k] == {} ==> forall q :: q in s.runs && s.runs[q].confIndex == k ==> s.runs[q].used != 0
  {
    hide RunHolds;
    if s.members[k] == {} {
      forall q | q in s.runs && s.runs[q].confIndex == k ensures s.runs[q].used != 0 {
        assert RunAt(s, q) && PoolAt(s, k);
        UsedCounts(s.runs[q], s.lists[q]);
        assert q !in s.members[k];
      }
    }
  }

  lemma PagesFree(s: Small, c: int)
    requires SmallHolds(s) && c in s.pages
    ensures forall i, k ::
      0 < i < PAGES && i !in s.pages[c] && 0 <= k < RUN_CONFIG_SIZE ==> PagePos(c, i) !in s.members[k]
  {
    forall i, k | 0 < i < PAGES && i !in s.pages[c] && 0 <= k < RUN_CONFIG_SIZE ensures PagePos(c, i) !in s.members[k] {
      PageFree(s, c, i);
      assert PoolAt(s, k);
    }
  }

  lemma AddFields(s: Small, c: int, i: nat, r: Run, l: seq<int>)
    requires c in s.pages && 0 <= r.confIndex < |s.members|
    ensures var s' := Add(s, c, i, r, l);
      && s'.runs == s.runs[PagePos(c, i) := r] && s'.pages == s.pages[c := s.pages[c] + {i}]
      && s'.members == s.members[r.confIndex := s.members[r.confIndex] + {PagePos(c, i)}]
  {
  }

  /** Where the freed block is its run's last one, the run may stay only if it is all its class offers. */
  lemma GiveSpare(s: Small, p: int, o: int)
    requires SmallHolds(s) && OneSpare(s) && Block(s, p, o) && 1 <= s.runs[p].confIndex < RUN_CONFIG_SIZE
    requires |s.members| == RUN_CONFIG_SIZE
    ensures !Superfluous(Give(s, p, o), p) ==> OneSpare(Give(s, p, o))
  {
    hide RunHolds, LiveSlots;
    GiveHolds(s, p, o);
    var s1, k := Give(s, p, o), s.runs[p].confIndex;
    assert PoolAt(s1, k);
    if s1.runs[p].used == 0 && |s1.members[k]| <= 1 {
      forall q | q in s1.runs && s1.runs[q].used == 0 && s1.runs[q].confIndex == k ensures q == p {
        assert RunAt(s1, q) && RunAt(s1, p);
        UsedCounts(s1.runs[q], s1.lists[q]);
        UsedCounts(s1.runs[p], s1.lists[p]);
        Only(s1.members[k], p, q);
      }
    }
  }

  lemma Only(m: set<int>, p: int, q: int)
    requires p in m && q in m
    ensures |m| <= 1 ==> p == q
  {
    if p != q { assert |m - {p} - {q}| == |m| - 2; }
  }

  lemma GiveDropSpare(s: Small, p: int, o: int, c: int, i: nat)
    requires OneSpare(s) && p in s.runs && p in s.lists && 0 <= s.runs[p].confIndex < |s.members| && c in s.pages
    ensures OneSpare(Drop(Give(s, p, o), p, c, i))
  {
  }

  lemma DropFields(s: Small, p: int, c: int, i: nat)
    requires p in s.runs && c in s.pages && 0 <= s.runs[p].confIndex < |s.members|
    ensures var s', k := Drop(s, p, c, i), s.runs[p].confIndex;
      s'.runs == s.runs - {p} && s'.pages == s.pages[c := s.pages[c] - {i}]
        && s'.members == s.members[k := s.members[k] - {p}]
  {
  }

  lemma GiveFields(s: Small, p: int, o: int)
    requires p in s.runs && p in s.lists && 0 <= s.runs[p].confIndex < |s.members|
    ensures var s', r, k := Give(s, p, o), s.runs[p], s.runs[p].confIndex;
      && s'.runs == s.runs[p := GiveSlot(r, o)] && s'.pages == s.pages
      && s'.members == if r.used == r.total then s.members[k := s.members[k] + {p}] else s.members
  {
  }

  // ----- what a free does -----

  /** Slot `o` of page `i` of chunk `c` goes back, and its run goes if nobody needs it. */
  ghost function Freed(s: Small, c: int, i: nat, o: int): Small
    requires c in s.pages && Block(s, PagePos(c, i), o) && 0 <= s.runs[PagePos(c, i)].confIndex < |s.members|
  {
    var p := PagePos(c, i);
    var s1 := Give(s, p, o);
    if Superfluous(s1, p) then Drop(s1, p, c, i) else s1
  }

  /** That, and the chunk is reported as empty exactly if only its header page is left. */
  ghost predicate FreedBy(s: Small, s': Small, c: int, i: nat, o: int, check: bool) {
    && c in s.pages && Block(s, PagePos(c, i), o) && 0 <= s.runs[PagePos(c, i)].confIndex < |s.members|
    && s' == Freed(s, c, i, o) && c in s'.pages && (check <==> s'.pages[c] == {0})
  }

  /** The same, and an empty chunk has left the index. */
  ghost predicate FreedTo(s: Small, s': Small, c: int, i: nat, o: int, check: bool) {
    && c in s.pages && Block(s, PagePos(c, i), o) && 0 <= s.runs[PagePos(c, i)].confIndex < |s.members|
    && var s1 := Freed(s, c, i, o);
    c in s1.pages && (check <==> s1.pages[c] == {0}) && s' == if check then s1.(pages := s1.pages - {c}) else s1
  }

  lemma SitsThere(s: Small, c: int, i: nat, o: int)
    requires SmallHolds(s) && c in s.pages && i in s.pages[c] && Block(s, PagePos(c, i), o)
    ensures var p := PagePos(c, i); p > 0 && Sits(s, p, c, i, s.runs[p].confIndex)
  {
    hide RunHolds, LiveSlots;
    var p := PagePos(c, i);
    assert RunAt(s, p) && ChunkAt(s, c);
    var d, j :| d in s.pages && j in s.pages[d] && j > 0 && InPage(p, d, j);
    PageUnique(p, c, i, d, j);
  }

  lemma GiveSits(s: Small, p: int, o: int, c: int, i: nat)
    requires SmallHolds(s) && Block(s, p, o) && Sits(s, p, c, i, s.runs[p].confIndex)
    ensures var s1, k := Give(s, p, o), s.runs[p].confIndex;
      Sits(s1, p, c, i, k) && (s1.runs[p].used == 0 ==> p in s1.members[k])
  {
    hide LiveSlots;
    GiveHolds(s, p, o);
    var s1, k := Give(s, p, o), s.runs[p].confIndex;
    assert PoolAt(s1, k) && RunAt(s1, p);
  }

  lemma FullNotOffered(s: Small, p: int)
    requires SmallHolds(s) && p in s.runs && 0 <= s.runs[p].confIndex < RUN_CONFIG_SIZE
    ensures s.runs[p].used == s.runs[p].total ==> p !in s.members[s.runs[p].confIndex]
  {
    assert PoolAt(s, s.runs[p].confIndex);
  }

  lemma SitsFacts(s: Small, p: int, c: int, i: nat)
    requires p in s.runs && Sits(s, p, c, i, s.runs[p].confIndex)
    ensures 0 <= s.runs[p].confIndex < RUN_CONFIG_SIZE
  {
  }

  lemma FreedPages(s: Small, c: int, i: nat, o: int)
    requires var p := PagePos(c, i); Block(s, p, o) && Sits(s, p, c, i, s.runs[p].confIndex)
    ensures var gone := Superfluous(Give(s, PagePos(c, i), o), PagePos(c, i));
      Freed(s, c, i, o).pages == if gone then s.pages[c := s.pages[c] - {i}] else s.pages
    ensures i in s.pages[c] && i > 0
  {
  }

  /** What the free of slot `o` of run `p` leaves of the runs: this run is gone exactly if that was its only
      live slot and another run of its class had a free one; all others are as they were. So the class
      offers a run afterwards. */
  ghost predicate RunsAfter(s: Small, s': Small, p: int, o: int) {
    && p in s.runs
    && (p !in s'.runs <==>
      && (forall u :: Block(s, p, u) ==> u == o)
      && exists q ::
        q != p && q in s.runs && s.runs[q].confIndex == s.runs[p].confIndex && s.runs[q].used < s.runs[q].total)
    && (forall q :: q != p ==> (q in s'.runs <==> q in s.runs))
    && (forall q :: q != p && q in s.runs ==> s'.runs[q] == s.runs[q])
    && exists q :: q in s'.runs && s'.runs[q].confIndex == s.runs[p].confIndex && s'.runs[q].used < s'.runs[q].total
  }

  lemma MoreThanOne<T>(m: set<T>, p: T)
    requires p in m
    ensures |m| > 1 <==> exists q :: q in m && q != p
  {
    if |m| > 1 { var q := OtherMember(m, p); }
    if exists q :: q in m && q != p {
      var q :| q in m && q != p;
      assert {p, q} <= m && |{p, q}| == 2;
      SubsetSize({p, q}, m);
    }
  }

  /** An empty run goes exactly if another run of its class has a free slot. */
  lemma SpareExact(s: Small, p: int, c: int, i: nat, k: int)
    requires SmallHolds(s) && Sits(s, p, c, i, k) && (s.runs[p].used == 0 ==> p in s.members[k])
    ensures Superfluous(s, p) <==> s.runs[p].used == 0 && exists q :: q != p && q in s.runs && Offered(s.runs[q], k)
    ensures p !in Drop(s, p, c, i).runs
  {
    hide RunHolds;
    assert PoolAt(s, k);
    if s.runs[p].used == 0 {
      MoreThanOne(s.members[k], p);
      if exists q :: q != p && q in s.runs && Offered(s.runs[q], k) {
        var q :| q != p && q in s.runs && Offered(s.runs[q], k);
        assert q in s.members[k];
      }
      if |s.members[k]| > 1 {
        var q := OtherMember(s.members[k], p);
        assert Offered(s.runs[q], k);
      }
    }
  }

  lemma SameRunsAfter(s: Small, s1: Small, s2: Small, p: int, o: int)
    requires s2.runs == s1.runs
    ensures RunsAfter(s, s1, p, o) <==> RunsAfter(s, s2, p, o)
  {
  }

  lemma OtherMember<T>(m: set<T>, p: T) returns (q: T)
    requires p in m && |m| > 1
    ensures q in m && q != p
  {
    var rest := m - {p};
    assert |rest| == |m| - 1;
    q :| q in rest;
  }

  lemma SubsetSize<T>(a: set<T>, b: set<T>)
    requires a <= b
    ensures |a| <= |b|
  {
    assert b == a + (b - a);
  }

  lemma SingleSet<T>(m: set<T>, o: T)
    requires o in m
    ensures |m| == 1 <==> forall u :: u in m ==> u == o
  {
    MoreThanOne(m, o);
  }

  /** `used` is 1 exactly if there is no other live slot. */
  lemma OnlyBlock(s: Small, p: int, o: int)
    requires SmallHolds(s) && Block(s, p, o)
    ensures s.runs[p].used == 1 <==> forall u :: Block(s, p, u) ==> u == o
  {
    hide RunHolds;
    assert RunAt(s, p);
    assert RunHolds(s.runs[p], s.lists[p]);
    UsedCounts(s.runs[p], s.lists[p]);
    SingleSet(LiveSlots(s.runs[p], s.lists[p]), o);
    hide LiveSlots;
    forall u ensures Block(s, p, u) <==> u in LiveSlots(s.runs[p], s.lists[p]) { }
  }

  /** The slot that has come back is free, and its run is offered. */
  lemma GivenOffered(s: Small, p: int, o: int)
    requires SmallHolds(s) && Block(s, p, o)
    ensures var s1, k := Give(s, p, o), s.runs[p].confIndex;
      && 1 <= k < RUN_CONFIG_SIZE == |s1.members| && p in s1.runs && p in s1.members[k] && Offered(s1.runs[p], k)
      && s1.runs[p].used == s.runs[p].used - 1
      && forall q :: q != p ==> (q in s1.members[k] <==> q in s.runs && Offered(s.runs[q], k))
  {
    hide RunHolds, LiveSlots;
    UsedBounds(s, p);
    GiveHolds(s, p, o);
    assert PoolAt(Give(s, p, o), s.runs[p].confIndex);
  }

  lemma FreedRuns(s: Small, c: int, i: nat, o: int)
    requires SmallHolds(s) && c in s.pages && i in s.pages[c] && Block(s, PagePos(c, i), o)
    requires 1 <= s.runs[PagePos(c, i)].confIndex < RUN_CONFIG_SIZE == |s.members|
    ensures RunsAfter(s, Freed(s, c, i, o), PagePos(c, i), o)
  {
    hide SmallHolds, LiveSlots;
    var p := PagePos(c, i);
    var s1, k := Give(s, p, o), s.runs[p].confIndex;
    GivenOffered(s, p, o);
    OnlyBlock(s, p, o);
    MoreThanOne(s1.members[k], p);
    hide Block;
    if Superfluous(s1, p) {
      var q := OtherMember(s1.members[k], p);
      assert q in Freed(s, c, i, o).runs;
    } else {
      assert p in Freed(s, c, i, o).runs;
    }
  }

  /** A free ends exactly one block, keeps the state whole, and leaves at most one spare run per class. */
  lemma FreedHolds(s: Small, c: int, i: nat, o: int)
    requires SmallHolds(s) && c in s.pages && i in s.pages[c] && Block(s, PagePos(c, i), o)
    ensures var p := PagePos(c, i);
      && 1 <= s.runs[p].confIndex < RUN_CONFIG_SIZE == |s.members| && SmallHolds(Freed(s, c, i, o))
      && (forall q, u :: Block(Freed(s, c, i, o), q, u) <==> Block(s, q, u) && !(q == p && u == o))
      && (OneSpare(s) ==> OneSpare(Freed(s, c, i, o)))
      && RunsAfter(s, Freed(s, c, i, o), p, o)
  {
    hide RunsAfter;
    hide LiveSlots, RunHolds, Block, OneSpare, SmallHolds, Give, Drop, InPage;
    var p := PagePos(c, i);
    SitsThere(s, c, i, o);
    GiveHolds(s, p, o);
    GiveSits(s, p, o, c, i);
    if OneSpare(s) { GiveSpare(s, p, o); GiveDropSpare(s, p, o, c, i); }
    var s1 := Give(s, p, o);
    if Superfluous(s1, p) { DropHolds(s1, p, c, i); }
    FreedRuns(s, c, i, o);
  }

  /** No run of class `k` has a free slot and no chunk a free page. */
  ghost predicate NothingFor(s: Small, k: int) {
    (forall p :: p in s.runs ==> !Offered(s.runs[p], k)) && forall c :: c in s.pages ==> |s.pages[c]| == PAGES
  }

  /** Run `p` is in chunk `c`. */
  ghost predicate OnChunk(p: int, c: int) {
    exists i :: 0 < i < PAGES && p == PagePos(c, i)
  }

  lemma NothingExact(s: Small, k: int)
    requires SmallHolds(s) && 1 <= k < RUN_CONFIG_SIZE
    ensures NothingFor(s, k) <==> s.members[k] == {} && forall c :: c in s.pages ==> |s.pages[c]| == PAGES
  {
    assert PoolAt(s, k);
    if NothingFor(s, k) {
      forall p ensures p !in s.members[k] { }
      NoMembers(s.members[k]);
    }
    if s.members[k] == {} {
      forall p | p in s.runs ensures !Offered(s.runs[p], k) { assert p !in s.members[k]; }
    }
  }

  lemma NoMembers<T>(s: set<T>)
    ensures s == {} <==> forall x :: x !in s
  {
  }

  /** Only the header page is left exactly if no run is. */
  lemma EmptyChunkExact(s: Small, c: int)
    requires SmallHolds(s) && c in s.pages
    ensures s.pages[c] == {0} <==> forall p :: p in s.runs ==> !OnChunk(p, c)
  {
    hide RunHolds;
    assert ChunkAt(s, c);
    if s.pages[c] == {0} {
      forall p | p in s.runs ensures !OnChunk(p, c) {
        if OnChunk(p, c) {
          var i :| 0 < i < PAGES && p == PagePos(c, i);
          PageFree(s, c, i);
        }
      }
    } else {
      var i := OtherPage(s.pages[c]);
      PageOnChunk(c, i);
    }
  }

  lemma OtherPage(s: set<nat>) returns (i: nat)
    requires 0 in s && s != {0}
    ensures i in s && i != 0
  {
    var rest := s - {0};
    assert rest + {0} == s;
    i :| i in rest;
  }

  lemma PageOnChunk(c: int, i: nat)
    ensures 0 < i < PAGES ==> OnChunk(PagePos(c, i), c)
  {
  }


  lemma RunPositive(s: Small, p: int)
    requires SmallHolds(s) && p in s.runs
    ensures p > 0
  {
    hide RunHolds;
    assert RunAt(s, p);
    var c, i :| c in s.pages && i in s.pages[c] && i > 0 && InPage(p, c, i);
    assert ChunkAt(s, c);
  }

  /** The first word of a slot is now `value`. */
  ghost function Written(s: Small, p: int, o: int, value: int): Small
    requires p in s.runs
  {
    s.(runs := s.runs[p := s.runs[p].(words := s.runs[p].words[o := value])])
  }

  lemma WrittenIs(s: Small, p: int, o: int, value: int)
    requires p in s.runs
    ensures Written(s, p, o, value) == s.(runs := s.runs[p := s.runs[p].(words := s.runs[p].words[o := value])])
  {
  }

  lemma WrittenSizes(s: Small, p: int, o: int, value: int)
    requires p in s.runs
    ensures var s' := Written(s, p, o, value);
      && s'.pages == s.pages && s'.members == s.members && s'.runs.Keys == s.runs.Keys
      && forall q :: q in s.runs ==> s'.runs[q].elemsize == s.runs[q].elemsize
  {
  }

  /** A user writes anything into the first word of a block it holds, where a free slot has its link. */
  lemma WriteKeeps(s: Small, p: int, o: int, value: int)
    requires SmallHolds(s) && Block(s, p, o)
    ensures var s' := s.(runs := s.runs[p := s.runs[p].(words := s.runs[p].words[o := value])]);
      SmallHolds(s') && (forall q, u :: Block(s', q, u) <==> Block(s, q, u)) && (OneSpare(s) ==> OneSpare(s'))
  {
    hide RunHolds, LiveSlots;
    assert RunAt(s, p);
    assert RunHolds(s.runs[p], s.lists[p]);
    WriteHolds(s.runs[p], s.lists[p], o, value);
    SameLiveSlots(s.runs[p], s.runs[p].words[o := value], s.lists[p]);
    var s' := s.(runs := s.runs[p := s.runs[p].(words := s.runs[p].words[o := value])]);
    forall q | q in s'.runs ensures RunAt(s', q) { assert RunAt(s, q); }
    forall c | c in s'.pages ensures ChunkAt(s', c) { assert ChunkAt(s, c); }
    forall k | 0 <= k < RUN_CONFIG_SIZE ensures PoolAt(s', k) { assert PoolAt(s, k); }
  }

  lemma SameLiveSlots(r: Run, words: map<int, int>, l: seq<int>)
    requires r.elemsize > 0
    ensures LiveSlots(r.(words := words), l) == LiveSlots(r, l)
  {
  }

  /** Every run has as many slots as fit behind its header. Each place of the page, in steps of the slot
      size, that has room for a slot is either a live block or in the free list of the run; the run is full
      exactly if they are all live. */
  lemma RunCapacity(s: Small, p: int)
    requires SmallHolds(s) && p in s.runs
    ensures var r := s.runs[p];
      && r.elemsize > 0 && Filled(r)
      && p in s.lists && (forall o :: Block(s, p, o) || o in s.lists[p] <==>
        RUN_HEADER_SIZE <= o && o + r.elemsize <= RUN_SIZE && (o - RUN_HEADER_SIZE) % r.elemsize == 0)
      && (forall o :: !(Block(s, p, o) && o in s.lists[p])) && (r.used == r.total <==> s.lists[p] == [])
  {
    hide RunHolds, LiveSlots;
    assert RunAt(s, p);
    var r, l := s.runs[p], s.lists[p];
    assert RunHolds(r, l);
    UsedCounts(r, l);
    FilledPage(r, l);
    RunPositiveSize(r, l);
  }

  lemma RunPositiveSize(r: Run, l: seq<int>)
    requires RunHolds(r, l)
    ensures r.elemsize > 0
  {
  }

  // ----- full runs -----

  /** The runs without a free slot, with their classes. */
  ghost function FullRuns(runs: map<int, Run>): map<int, int> {
    map p | p in runs && runs[p].used == runs[p].total :: runs[p].confIndex
  }

  /** Taking a slot of `p` fills it, and its node keeps its links: other runs of its class were
      offered, and the pool does not clear links. */
  ghost predicate KeepsLinks(s: Small, p: int, clears: bool) {
    && p in s.runs && s.runs[p].used + 1 == s.runs[p].total && !clears
    && 0 <= s.runs[p].confIndex < |s.members| && |s.members[s.runs[p].confIndex]| != 1
  }

  /** What a request of class `k` that gets a slot of run `p` leaves of the runs: this is one of the class
      that had a free slot, or a new one exactly if there was none; all others are as they were. */
  ghost predicate RunsFor(s: Small, s': Small, p: int, k: int) {
    && p in s'.runs && s'.runs[p].confIndex == k
    && (if exists q :: q in s.runs && Offered(s.runs[q], k) then p in s.runs && Offered(s.runs[p], k)
      else p !in s.runs)
    && (forall q :: q != p ==> (q in s'.runs <==> q in s.runs))
    && forall q :: q != p && q in s.runs ==> s'.runs[q] == s.runs[q]
  }

  /** Run `p` was there, or has just been made because the class had none with a free slot. */
  ghost predicate RunReady(s: Small, s1: Small, p: int, k: int) {
    && p in s1.runs && Offered(s1.runs[p], k)
    && if p in s.runs then s1.runs == s.runs
      else s1.runs == s.runs[p := s1.runs[p]] && forall q :: q in s.runs ==> !Offered(s.runs[q], k)
  }

  lemma ReadyIs(s: Small, s1: Small, p: int, k: int)
    requires p in s1.runs && Offered(s1.runs[p], k)
    ensures p in s.runs && s1.runs == s.runs ==> RunReady(s, s1, p, k)
    ensures p !in s.runs && s1.runs == s.runs[p := s1.runs[p]] ==>
      (forall q :: q in s.runs ==> !Offered(s.runs[q], k)) ==> RunReady(s, s1, p, k)
  {
  }

  /** A slot of such a run is taken. */
  lemma TakenFor(s: Small, s1: Small, p: int, k: int)
    requires RunReady(s, s1, p, k) && CanTake(s1, p)
    ensures RunsFor(s, Take(s1, p), p, k)
  {
  }

  /** The full runs that have links once a slot at `r` has been taken: the run of that slot is one
      of them if it is full now, was not alone in its pool and the pool clears no links. */
  ghost function LinkedAfter(s: Small, linked: set<int>, r: int, clears: bool): set<int> {
    var p := r - r % RUN_SIZE;
    if r != 0 && KeepsLinks(s, p, clears) then linked + {p} else linked
  }

  lemma LinkedAtSlot(s: Small, linked: set<int>, r: int, clears: bool)
    ensures r == 0 ==> LinkedAfter(s, linked, r, clears) == linked
    ensures r != 0 && KeepsLinks(s, r - r % RUN_SIZE, clears) ==>
      LinkedAfter(s, linked, r, clears) == linked + {r - r % RUN_SIZE}
    ensures !KeepsLinks(s, r - r % RUN_SIZE, clears) ==> LinkedAfter(s, linked, r, clears) == linked
  {
  }

  lemma TakeFull(s: Small, p: int)
    requires CanTake(s, p) && s.runs[p].used < s.runs[p].total
    ensures FullRuns(Take(s, p).runs) ==
      if s.runs[p].used + 1 == s.runs[p].total then FullRuns(s.runs)[p := s.runs[p].confIndex] else FullRuns(s.runs)
  {
  }

  lemma GiveFull(runs: map<int, Run>, p: int, o: int)
    requires p in runs
    ensures runs[p].used == runs[p].total ==> FullRuns(runs[p := GiveSlot(runs[p], o)]) == FullRuns(runs) - {p}
    ensures runs[p].used < runs[p].total ==> FullRuns(runs[p := GiveSlot(runs[p], o)]) == FullRuns(runs)
  {
  }

  lemma DropFull(runs: map<int, Run>, p: int)
    requires p in runs && runs[p].used < runs[p].total
    ensures FullRuns(runs - {p}) == FullRuns(runs)
  {
  }

  lemma AddFull(runs: map<int, Run>, p: int, r: Run)
    requires p !in runs && r.used < r.total
    ensures FullRuns(runs[p := r]) == FullRuns(runs)
  {
  }

  lemma WriteFull(runs: map<int, Run>, p: int, words: map<int, int>)
    requires p in runs
    ensures FullRuns(runs[p := runs[p].(words := words)]) == FullRuns(runs)
  {
  }

  /** `used` never exceeds `total`, and an empty run is not full. */
  lemma UsedBounds(s: Small, p: int)
    requires SmallHolds(s) && p in s.runs
    ensures 0 <= s.runs[p].used <= s.runs[p].total && s.runs[p].total > 0 && 1 <= s.runs[p].confIndex < RUN_CONFIG_SIZE
  {
    hide RunHolds;
    assert RunAt(s, p);
    assert RunHolds(s.runs[p], s.lists[p]);
    UsedCounts(s.runs[p], s.lists[p]);
  }
}
