/** One page of equal slots, src/chunk_small.c: the free slots are linked through their own first
    words, starting at `free`. */
module SmallRun {

  /** SHM_RUN_UNIT_SIZE */
  const RUN_SIZE: int := 4096
  const RUN_HEADER_SIZE: int := 64
  const RUN_LIST_NULL: int := 0xffffffff
  /** Bytes of the link in a free slot. */
  const RUN_LINK: int := 4
  const CHUNK_SMALL_LIMIT: int := 1920
  const RUN_CONFIG_SIZE: int := 15

  // ----- size classes -----

  /** run_config_list */
  const ELEM_SIZES: seq<int> := [0, 8, 16, 32, 48, 64, 96, 128, 192, 256, 384, 512, 768, 1280, CHUNK_SMALL_LIMIT]
  const RUN_TABLE_8: seq<int> := [1, 2, 3, 3, 4, 4, 5, 5, 6, 6, 6, 6]
  const RUN_TABLE_32: seq<int> := [7, 7, 7, 7, 8, 8, 9, 9, 10, 10, 10, 10, 11, 11, 11, 11]
  const RUN_TABLE_128: seq<int> := [12, 12, 12, 12, 12, 12, 13, 13, 13, 13, 14, 14, 14, 14, 14, 14]

  /** find_run_config: the smallest class whose slots are large enough. */
  function FindRunConfig(size: int): (c: int)
    requires 0 < size <= CHUNK_SMALL_LIMIT
    ensures 1 <= c < RUN_CONFIG_SIZE && ELEM_SIZES[c - 1] < size <= ELEM_SIZES[c]
  {
    if size <= 96 then RUN_TABLE_8[(size - 1) / 8]
    else if size <= 512 then RUN_TABLE_32[(size - 1) / 32]
    else RUN_TABLE_128[(size - 1) / 128]
  }

  // ----- slots -----

  /** A page set up as a run. `words` holds the first word of every slot, by offset in the page. */
  datatype Run = Run(confIndex: int, elemsize: int, total: int, used: int, free: int, words: map<int, int>)

  function Slot(elemsize: int, k: int): int {
    RUN_HEADER_SIZE + k * elemsize
  }

  lemma {:induction false} SlotsApart(elemsize: int, j: int, k: int)
    requires elemsize > 0 && j < k
    ensures Slot(elemsize, j) + elemsize <= Slot(elemsize, k)
    decreases k - j
  {
    assert k * elemsize == (k - 1) * elemsize + elemsize;
    if j + 1 < k { SlotsApart(elemsize, j, k - 1); }
  }

  function Total(elemsize: int): int
    requires elemsize > 0
  {
    (RUN_SIZE - RUN_HEADER_SIZE) / elemsize
  }

  ghost predicate IsSlot(elemsize: int, o: int)
    requires elemsize > 0
  {
    exists k :: 0 <= k < Total(elemsize) && Slot(elemsize, k) == o
  }

  /** A page has room for `Total` slots and no more. */
  lemma Capacity(elemsize: int)
    requires 0 < elemsize
    ensures var n := Total(elemsize); RUN_HEADER_SIZE + n * elemsize <= RUN_SIZE < RUN_HEADER_SIZE + (n + 1) * elemsize
  {
    var n := RUN_SIZE - RUN_HEADER_SIZE;
    assert n == elemsize * (n / elemsize) + n % elemsize;
  }

  /** Every place behind the header, in steps of the slot size, with room for a slot is one. */
  lemma EverySlot(elemsize: int, o: int)
    requires elemsize > 0
    ensures IsSlot(elemsize, o) <==>
      RUN_HEADER_SIZE <= o && o + elemsize <= RUN_SIZE && (o - RUN_HEADER_SIZE) % elemsize == 0
  {
    if IsSlot(elemsize, o) {
      SlotInPage(elemsize, o);
      hide Total;
      var k :| 0 <= k < Total(elemsize) && Slot(elemsize, k) == o;
      Quotient(k, elemsize);
    }
    if RUN_HEADER_SIZE <= o && o + elemsize <= RUN_SIZE && (o - RUN_HEADER_SIZE) % elemsize == 0 {
      PlaceIsSlot(elemsize, o, (o - RUN_HEADER_SIZE) / elemsize);
    }
  }

  lemma PlaceIsSlot(elemsize: int, o: int, k: int)
    requires elemsize > 0 && k >= 0 && o == RUN_HEADER_SIZE + k * elemsize && o + elemsize <= RUN_SIZE
    ensures IsSlot(elemsize, o)
  {
    Capacity(elemsize);
    hide Total;
    Below(k, Total(elemsize), elemsize, o + elemsize - RUN_HEADER_SIZE);
    assert Slot(elemsize, k) == o;
  }

  lemma Quotient(k: int, e: int)
    requires e > 0
    ensures (k * e) % e == 0
  {
    RemainderOf(k * e, k, e);
  }

  lemma RemainderOf(x: int, k: int, e: int)
    requires e > 0 && x == k * e
    ensures x % e == 0
  {
    var q, r := x / e, x % e;
    assert x == q * e + r && 0 <= r < e;
    assert (k - q) * e == r;
    AtLeast(k - q, e);
    AtLeast(q - k, e);
  }

  lemma AtLeast(a: int, e: int)
    requires e > 0
    ensures a >= 1 ==> a * e >= e
  {
  }

  lemma Nonnegative(a: int, e: int)
    requires e > 0
    ensures a >= 0 ==> a * e >= 0
  {
  }

  lemma Below(k: int, n: int, e: int, end: int)
    requires e > 0 && end == (k + 1) * e && end < (n + 1) * e
    ensures k < n
  {
    assert (k + 1) * e == (n + 1) * e + (k - n) * e;
    Nonnegative(k - n, e);
  }

  lemma SlotBounds(elemsize: int, k: int)
    requires elemsize > 0 && k >= 0
    ensures RUN_HEADER_SIZE <= Slot(elemsize, k) && Slot(elemsize, Total(elemsize)) <= RUN_SIZE
  {
    Capacity(elemsize);
    Nonnegative(k, elemsize);
  }

  lemma SlotNext(elemsize: int, k: int)
    ensures Slot(elemsize, k) + elemsize == Slot(elemsize, k + 1) == (k + 1) * elemsize + RUN_HEADER_SIZE
    ensures Slot(elemsize, 0) == RUN_HEADER_SIZE
  {
  }

  /** Every class has room for two slots. */
  lemma TwoSlots(k: int)
    requires 1 <= k < RUN_CONFIG_SIZE
    ensures ELEM_SIZES[k] > 0 && (RUN_SIZE - RUN_HEADER_SIZE) / ELEM_SIZES[k] >= 2
    ensures Total(ELEM_SIZES[k]) == (RUN_SIZE - RUN_HEADER_SIZE) / ELEM_SIZES[k]
  {
  }

  /** A slot lies in its page, after the header, and no two of them overlap. */
  lemma SlotInPage(elemsize: int, o: int)
    requires elemsize > 0 && IsSlot(elemsize, o)
    ensures RUN_HEADER_SIZE <= o && o + elemsize <= RUN_SIZE
    ensures forall o' :: IsSlot(elemsize, o') && o' != o ==> o' + elemsize <= o || o + elemsize <= o'
  {
    var k :| 0 <= k < Total(elemsize) && Slot(elemsize, k) == o;
    SlotBounds(elemsize, k);
    hide Slot, Total;
    SlotsApart(elemsize, k, Total(elemsize));
    forall o' | IsSlot(elemsize, o') && o' != o ensures o' + elemsize <= o || o + elemsize <= o' {
      var j :| 0 <= j < Total(elemsize) && Slot(elemsize, j) == o';
      if j < k { SlotsApart(elemsize, j, k); } else if k < j { SlotsApart(elemsize, k, j); }
    }
  }

  /** All slots of a page. */
  ghost function Slots(elemsize: int, n: nat): (s: set<int>)
    requires elemsize > 0
    ensures |s| == n && forall o :: o in s <==> exists k :: 0 <= k < n && Slot(elemsize, k) == o
  {
    if n == 0 then {}
    else
      var s := Slots(elemsize, n - 1);
      SlotNew(elemsize, n - 1);
      s + {Slot(elemsize, n - 1)}
  }

  lemma SlotNew(elemsize: int, n: nat)
    requires elemsize > 0
    ensures !exists k :: 0 <= k < n && Slot(elemsize, k) == Slot(elemsize, n)
  {
    forall k | 0 <= k < n ensures Slot(elemsize, k) != Slot(elemsize, n) {
      SlotsApart(elemsize, k, n);
    }
  }

  // ----- the free list -----

  /** Following the links from `free` gives exactly `l`, then the end. */
  ghost predicate Chain(words: map<int, int>, free: int, l: seq<int>)
    decreases |l|
  {
    if l == [] then free == RUN_LIST_NULL
    else free == l[0] && free in words && Chain(words, words[free], l[1..])
  }

  lemma {:induction false} ChainFrame(words: map<int, int>, words': map<int, int>, free: int, l: seq<int>)
    requires Chain(words, free, l) && forall o :: o in l && o in words ==> o in words' && words'[o] == words[o]
    ensures Chain(words', free, l)
    decreases |l|
  {
    if l != [] { ChainFrame(words, words', words[free], l[1..]); }
  }

  ghost predicate NoRepeats(l: seq<int>) {
    forall i, j :: 0 <= i < j < |l| ==> l[i] != l[j]
  }

  ghost function Elements(l: seq<int>): set<int> {
    set o | o in l
  }

  lemma {:induction false} ElementsCount(l: seq<int>)
    requires NoRepeats(l)
    ensures |Elements(l)| == |l|
  {
    if l != [] {
      ElementsCount(l[1..]);
      assert Elements(l) == {l[0]} + Elements(l[1..]);
      assert l[0] !in Elements(l[1..]);
    }
  }

  ghost predicate RunHolds(r: Run, l: seq<int>) {
    && r.elemsize > 0 && r.total == Total(r.elemsize) && r.total > 0
    && r.used == r.total - |l|
    && Chain(r.words, r.free, l) && NoRepeats(l)
    && forall o :: o in l ==> IsSlot(r.elemsize, o)
  }

  /** The slots handed out: those the free list does not reach. */
  ghost function LiveSlots(r: Run, l: seq<int>): set<int>
    requires r.elemsize > 0
  {
    Slots(r.elemsize, Total(r.elemsize)) - Elements(l)
  }

  /** `used` counts the slots handed out. */
  lemma UsedCounts(r: Run, l: seq<int>)
    requires RunHolds(r, l)
    ensures |LiveSlots(r, l)| == r.used && 0 <= r.used <= r.total
    ensures r.used == 0 <==> LiveSlots(r, l) == {}
    ensures r.used == r.total <==> l == []
    ensures r.total > 0
  {
    ElementsCount(l);
    assert Elements(l) <= Slots(r.elemsize, r.total);
  }

  /** Where following the links leads in at most n steps: the places passed, and where it ends. */
  function Follow(words: map<int, int>, free: int, n: nat): (seq<int>, int)
    decreases n
  {
    if n == 0 || free !in words then ([], free)
    else var (rest, end) := Follow(words, words[free], n - 1); ([free] + rest, end)
  }

  lemma {:induction false} FollowChain(words: map<int, int>, free: int, l: seq<int>)
    requires Chain(words, free, l)
    ensures Follow(words, free, |l|) == (l, RUN_LIST_NULL)
    decreases |l|
  {
    if l != [] {
      FollowChain(words, words[free], l[1..]);
      assert [free] + l[1..] == l;
    }
  }

  /** `total - used` steps along the free list pass every slot that is not handed out, each once,
      and then reach the end. */
  lemma FreeListExact(r: Run, l: seq<int>)
    requires RunHolds(r, l) && r.used <= r.total
    ensures var (passed, end) := Follow(r.words, r.free, r.total - r.used);
      && end == RUN_LIST_NULL && NoRepeats(passed)
      && (forall o :: o in passed <==> IsSlot(r.elemsize, o) && o !in LiveSlots(r, l))
  {
    FollowChain(r.words, r.free, l);
    forall o ensures IsSlot(r.elemsize, o) <==> o in Slots(r.elemsize, r.total) { }
  }

  // ----- operations -----

  /** malloc_run */
  function TakeSlot(r: Run): Run
    requires r.free in r.words
  {
    r.(free := r.words[r.free], used := r.used + 1)
  }

  /** free_run */
  function GiveSlot(r: Run, offset: int): Run {
    r.(words := r.words[offset := r.free], free := offset, used := r.used - 1)
  }

  /** malloc_run on a page that is not full: its assertions hold, and the slot it gives was not
      handed out. */
  lemma TakeSlotHolds(r: Run, l: seq<int>)
    requires RunHolds(r, l) && r.used < r.total
    ensures l != [] && r.free != RUN_LIST_NULL && r.free in r.words && r.free == l[0]
    ensures RunHolds(TakeSlot(r), l[1..])
    ensures IsSlot(r.elemsize, r.free) && r.free !in LiveSlots(r, l)
    ensures LiveSlots(TakeSlot(r), l[1..]) == LiveSlots(r, l) + {r.free}
  {
    assert l[0] in l;
    assert IsSlot(r.elemsize, l[0]);
    SlotInPage(r.elemsize, l[0]);
    assert Elements(l) == Elements(l[1..]) + {l[0]};
    assert l[0] !in Elements(l[1..]);
  }

  /** free_run of a slot that is handed out. */
  lemma GiveSlotHolds(r: Run, l: seq<int>, offset: int)
    requires RunHolds(r, l) && offset in LiveSlots(r, l)
    ensures r.used > 0 && RunHolds(GiveSlot(r, offset), [offset] + l)
    ensures LiveSlots(GiveSlot(r, offset), [offset] + l) == LiveSlots(r, l) - {offset}
  {
    hide Chain, Slots, IsSlot, Elements, NoRepeats;
    UsedCounts(r, l);
    NotFree(r, l, offset);
    ConsNew(offset, l);
    ChainPush(r.words, r.free, l, offset);
    TakeOne(Slots(r.elemsize, r.total), Elements(l), offset);
    assert LiveSlots(r, l) != {};
  }

  lemma ChainPush(words: map<int, int>, free: int, l: seq<int>, offset: int)
    requires Chain(words, free, l) && offset !in l
    ensures Chain(words[offset := free], offset, [offset] + l)
  {
    ChainFrame(words, words[offset := free], free, l);
    assert ([offset] + l)[1..] == l;
  }

  lemma ConsNew(o: int, l: seq<int>)
    requires o !in l && NoRepeats(l)
    ensures Elements([o] + l) == Elements(l) + {o} && NoRepeats([o] + l)
    ensures forall x :: x in [o] + l <==> x == o || x in l
  {
  }

  lemma TakeOne(all: set<int>, s: set<int>, o: int)
    ensures all - (s + {o}) == all - s - {o}
  {
  }

  lemma NotFree(r: Run, l: seq<int>, offset: int)
    requires r.elemsize > 0 && offset in LiveSlots(r, l)
    ensures offset !in l && IsSlot(r.elemsize, offset)
  {
    assert offset !in Elements(l);
  }

  /** The owner of a slot may write anything there. */
  lemma WriteHolds(r: Run, l: seq<int>, offset: int, value: int)
    requires RunHolds(r, l) && offset in LiveSlots(r, l)
    ensures RunHolds(r.(words := r.words[offset := value]), l)
  {
    assert offset !in l;
    ChainFrame(r.words, r.words[offset := value], r.free, l);
  }

  /** All slots in order, from slot k on. */
  ghost function SlotsFrom(elemsize: int, k: int, total: int): (l: seq<int>)
    requires 0 <= k <= total
    ensures |l| == total - k && forall i :: 0 <= i < |l| ==> l[i] == Slot(elemsize, k + i)
    decreases total - k
  {
    if k == total then [] else [Slot(elemsize, k)] + SlotsFrom(elemsize, k + 1, total)
  }

  /** Slot j leads to the next one, the last one to the end. */
  ghost predicate LinkedAt(words: map<int, int>, elemsize: int, total: int, j: int) {
    && Slot(elemsize, j) in words
    && words[Slot(elemsize, j)] == if j + 1 < total then Slot(elemsize, j + 1) else RUN_LIST_NULL
  }

  lemma {:induction false} ChainFromSlot(words: map<int, int>, elemsize: int, k: int, total: int)
    requires 0 <= k < total && forall j :: k <= j < total ==> LinkedAt(words, elemsize, total, j)
    ensures Chain(words, Slot(elemsize, k), SlotsFrom(elemsize, k, total))
    decreases total - k
  {
    var l := SlotsFrom(elemsize, k, total);
    assert l[1..] == SlotsFrom(elemsize, k + 1, total);
    assert LinkedAt(words, elemsize, total, k);
    if k + 1 < total { ChainFromSlot(words, elemsize, k + 1, total); }
  }

  /** The first `n` slots are linked. */
  ghost predicate LinkedTo(words: map<int, int>, elemsize: int, total: int, n: int) {
    forall j :: 0 <= j < n ==> LinkedAt(words, elemsize, total, j)
  }

  lemma NoneLinked(words: map<int, int>, elemsize: int, total: int)
    ensures LinkedTo(words, elemsize, total, 0)
  {
  }

  /** One more slot is linked. */
  lemma LinkOn(words: map<int, int>, elemsize: int, total: int, k: int)
    requires elemsize > 0 && 0 <= k < total && LinkedTo(words, elemsize, total, k)
    ensures var next := if k + 1 < total then Slot(elemsize, k + 1) else RUN_LIST_NULL;
      LinkedTo(words[Slot(elemsize, k) := next], elemsize, total, k + 1)
  {
    var words' := words[Slot(elemsize, k) := if k + 1 < total then Slot(elemsize, k + 1) else RUN_LIST_NULL];
    forall j | 0 <= j < k + 1 ensures LinkedAt(words', elemsize, total, j) {
      if j < k {
        SlotsApart(elemsize, j, k);
        assert LinkedAt(words, elemsize, total, j);
      }
    }
  }

  /** Header and slots fit in the page, and one slot more does not. */
  ghost predicate Filled(r: Run) {
    RUN_HEADER_SIZE + r.total * r.elemsize <= RUN_SIZE < RUN_HEADER_SIZE + (r.total + 1) * r.elemsize
  }

  /** The run part of new_chunk_run: header and free list of a cleared page. */
  method InitRun(confIndex: int) returns (r: Run, ghost l: seq<int>)
    requires 1 <= confIndex < RUN_CONFIG_SIZE
    ensures RunHolds(r, l) && r.confIndex == confIndex && r.elemsize == ELEM_SIZES[confIndex]
    ensures r.used == 0 && LiveSlots(r, l) == {} && r.total >= 2
    ensures Filled(r)
    ensures forall o ::
      o in l <==> RUN_HEADER_SIZE <= o && o + r.elemsize <= RUN_SIZE && (o - RUN_HEADER_SIZE) % r.elemsize == 0
  {
    hide Slot, Total, Chain, LinkedTo;
    TwoSlots(confIndex);
    var elemsize := ELEM_SIZES[confIndex];
    var total := (RUN_SIZE - RUN_HEADER_SIZE) / elemsize;
    SlotNext(elemsize, 0);
    var words: map<int, int> := map[];
    NoneLinked(words, elemsize, total);
    var runblock := RUN_HEADER_SIZE;
    var i := 1;
    while i < total
      invariant 1 <= i <= total && runblock == Slot(elemsize, i - 1)
      invariant LinkedTo(words, elemsize, total, i - 1)
    {
      LinkOn(words, elemsize, total, i - 1);
      SlotNext(elemsize, i - 1);
      var diff := i * elemsize + RUN_HEADER_SIZE;
      words := words[runblock := diff];
      runblock := runblock + elemsize;
      i := i + 1;
    }
    LinkOn(words, elemsize, total, total - 1);
    words := words[runblock := RUN_LIST_NULL];
    r := Run(confIndex, elemsize, total, 0, RUN_HEADER_SIZE, words);
    l := SlotsFrom(elemsize, 0, total);
    AllFree(r, l);
    hide *;
    FreshPage(r, l);
  }

  lemma FreshPage(r: Run, l: seq<int>)
    requires RunHolds(r, l) && r.elemsize > 0 && LiveSlots(r, l) == {}
    ensures Filled(r)
    ensures forall o ::
      o in l <==> RUN_HEADER_SIZE <= o && o + r.elemsize <= RUN_SIZE && (o - RUN_HEADER_SIZE) % r.elemsize == 0
  {
    hide RunHolds, LiveSlots;
    FilledPage(r, l);
  }

  /** The free list and the slots handed out are together all places in the page that have room for one;
      the page is full exactly if they are all handed out. */
  lemma FilledPage(r: Run, l: seq<int>)
    requires RunHolds(r, l)
    ensures Filled(r)
    ensures forall o :: o in l || o in LiveSlots(r, l) <==>
      RUN_HEADER_SIZE <= o && o + r.elemsize <= RUN_SIZE && (o - RUN_HEADER_SIZE) % r.elemsize == 0
    ensures forall o :: !(o in l && o in LiveSlots(r, l))
    ensures r.used == r.total <==> l == []
  {
    Capacity(r.elemsize);
    UsedCounts(r, l);
    forall o ensures o in l || o in LiveSlots(r, l) <==>
      RUN_HEADER_SIZE <= o && o + r.elemsize <= RUN_SIZE && (o - RUN_HEADER_SIZE) % r.elemsize == 0 {
        EverySlot(r.elemsize, o);
      }
  }

  lemma AllFree(r: Run, l: seq<int>)
    requires r.elemsize > 0 && r.total == Total(r.elemsize) > 0 && r.used == 0 && r.free == RUN_HEADER_SIZE
    requires LinkedTo(r.words, r.elemsize, r.total, r.total)
    requires l == SlotsFrom(r.elemsize, 0, r.total)
    ensures RunHolds(r, l) && LiveSlots(r, l) == {}
  {
    var e := r.elemsize;
    ChainFromSlot(r.words, e, 0, r.total);
    assert Slot(e, 0) == RUN_HEADER_SIZE;
    hide Chain;
    forall a, b | 0 <= a < b < |l| ensures l[a] != l[b] { SlotsApart(e, a, b); }
    forall o | o in l ensures IsSlot(e, o) { var a :| 0 <= a < |l| && l[a] == o; assert Slot(e, a) == o; }
    forall o | o in Slots(e, r.total) ensures o in Elements(l) {
      var a :| 0 <= a < r.total && Slot(e, a) == o; assert l[a] == o;
    }
  }
}
