/** What the calls of a process do to the mappings of all processes, with the answers of the kernel. */
module KernelSteps {
  import opened Basics
  import opened MappingCache
  import opened ArenaTable
  import opened WholeHeap
  import opened WholeFree
  import opened HeapMappings
  import opened Context

  /** The answers of the kernel: the address a mapping gets in a process, and the id of a new segment. */
  datatype Kernel = Kernel(where: (World, int) -> int, name: World -> int)

  /** What the kernel promises: a mapping goes where nothing is, and an id is that of no living segment. */
  ghost predicate Keeping(k: Kernel) {
    && (forall w: World, p :: p in w.attached ==> FreeAddress(w, p, k.where(w, p)))
    && forall w: World :: FreeId(w, k.name(w))
  }

  lemma {:induction false} AboveAll(s: set<int>) returns (m: int)
    ensures m > 0 && forall x :: x in s ==> x < m
  {
    m := 1;
    if s == {} {
      NoneIn(s);
    } else {
      var x := Pick(s);
      m := AboveAll(s - {x});
      if m <= x { m := x + 1; }
    }
  }

  lemma NoneIn<T>(s: set<T>)
    ensures s == {} ==> forall y :: y !in s
  {
  }

  lemma Pick<T>(s: set<T>) returns (x: T)
    requires s != {}
    ensures x in s && |s - {x}| < |s| && forall y :: y in s ==> y == x || y in s - {x}
  {
    x :| x in s;
  }

  ghost function AnyAddress(w: World, p: int): int {
    if exists a :: FreeAddress(w, p, a) then var a :| FreeAddress(w, p, a); a else NOWHERE
  }

  ghost function AnyId(w: World): int {
    if exists id :: FreeId(w, id) then var id :| FreeId(w, id); id else 0
  }

  /** A kernel can always keep its promises. */
  lemma SomeKernel() returns (k: Kernel)
    ensures Keeping(k)
  {
    k := Kernel((w, p) => AnyAddress(w, p), w => AnyId(w));
    forall w: World, p | p in w.attached ensures FreeAddress(w, p, k.where(w, p)) {
      var m := AboveAll(w.attached[p].Keys);
      assert FreeAddress(w, p, m);
    }
    forall w: World ensures FreeId(w, k.name(w)) {
      var m := AboveAll(w.kernel.Keys);
      assert FreeId(w, m);
    }
  }

  /** get_or_update_arena_addr for index `i`. */
  function Look(k: Kernel, w: World, p: int, i: nat): World
    requires WellFormed(w) && p in w.caches && i < ARENAS
  {
    match Resolve(w, p, i, k.where(GivenUp(w, p, i), p))
    case Aborted => w
    case Done(w1, _) => w1
  }

  lemma LookKeeps(k: Kernel, w: World, p: int, i: nat)
    requires Keeping(k) && Inv(w) && p in w.caches && i < ARENAS
    ensures var addr := k.where(GivenUp(w, p, i), p); FreeFor(w, p, i, addr) && Resolve(w, p, i, addr).Done?
    ensures var w1 := Look(k, w, p, i);
      && Inv(w1) && w1.table == w.table && w1.caches.Keys == w.caches.Keys
      && (ArenaValid(w, i) ==> w1.caches[p][i].addr != NOWHERE)
      && w1.caches[p][i].shmid == w.table[i].shmid && SameLost(w, w1)
      && w1.caches == w.caches[p := w.caches[p][i := w1.caches[p][i]]]
  {
    GivenUpProcess(w, p, i);
    EmptyRow(w, i);
    hide Inv, Resolve, GivenUp, SameLost, Dropped;
    ResolveExact(w, p, i, k.where(GivenUp(w, p, i), p));
    ResolveMaps(w, p, i, k.where(GivenUp(w, p, i), p));
  }

  lemma EmptyRow(w: World, i: nat)
    requires Inv(w) && i < ARENAS
    ensures ArenaValid(w, i) || w.table[i].shmid == 0
  {
    assert SlotHolds(w, i);
  }

  lemma GivenUpProcess(w: World, p: int, i: nat)
    requires Inv(w) && p in w.caches && i < ARENAS
    ensures WellFormed(w) && p in GivenUp(w, p, i).attached
  {
  }

  /** A call looks at some arenas; which ones, and in which order, is left open. What is not the index of an
      arena is passed over. */
  function LookAll(k: Kernel, w: World, p: int, walk: seq<nat>): World
    requires WellFormed(w) && p in w.caches
    decreases |walk|
  {
    if walk == [] then w
    else
      var w1 := if walk[0] < ARENAS then Look(k, w, p, walk[0]) else w;
      if WellFormed(w1) && p in w1.caches then LookAll(k, w1, p, walk[1..]) else w1
  }

  lemma {:induction false} LookAllKeeps(k: Kernel, w: World, p: int, walk: seq<nat>)
    requires Keeping(k) && Inv(w) && p in w.caches
    ensures WellFormed(w)
    ensures var w1 := LookAll(k, w, p, walk);
      Inv(w1) && w1.table == w.table && w1.caches.Keys == w.caches.Keys && SameLost(w, w1)
    decreases |walk|
  {
    WellFormedInv(w);
    hide Inv, Look, Keeping, SameLost;
    AllSame(w);
    if walk != [] {
      var w1 := if walk[0] < ARENAS then Look(k, w, p, walk[0]) else w;
      if walk[0] < ARENAS { LookKeeps(k, w, p, walk[0]); }
      WellFormedInv(w1);
      LookAllKeeps(k, w1, p, walk[1..]);
      SameTwice(w, w1, LookAll(k, w, p, walk));
    }
  }

  /** After it the process's entry for every arena it has looked at has the id the table has now, as have
      those that had it before. */
  lemma {:induction false} LookAllReaches(k: Kernel, w: World, p: int, walk: seq<nat>, i: nat)
    requires Keeping(k) && Inv(w) && p in w.caches && i < ARENAS && WellFormed(w)
    requires i in walk || w.caches[p][i].shmid == w.table[i].shmid
    ensures var w1 := LookAll(k, w, p, walk);
      WellFormed(w1) && p in w1.caches && w1.caches[p][i].shmid == w.table[i].shmid
    decreases |walk|
  {
    hide Inv, Look, Keeping, SameLost;
    if walk != [] {
      var w1 := if walk[0] < ARENAS then Look(k, w, p, walk[0]) else w;
      if walk[0] < ARENAS { LookKeeps(k, w, p, walk[0]); }
      WellFormedInv(w1);
      assert i in walk[1..] || w1.caches[p][i].shmid == w.table[i].shmid;
      LookAllReaches(k, w1, p, walk[1..], i);
    }
  }

  /** new_arena on the side of the mappings, if the table has a new arena. */
  function Grow(k: Kernel, w: World, p: int, t: seq<Arena>, t': seq<Arena>): World
    requires WellFormed(w) && p in w.caches && 1 <= |t| == |t'|
  {
    var e := FirstUnused(t, 1);
    if e < |t| && t'[e].kind != EmptyArena then
      match NewArena(w, p, t'[e].kind, k.name(w), k.where(w, p))
      case Aborted => w
      case Done(w1, _) => w1
    else w
  }

  /** What a request does to the table. */
  ghost predicate Grown(t: seq<Arena>, t': seq<Arena>) {
    && |t| == ARENAS
    && (|| t' == t
        || (NewChunkPos(t) != SHM_NULL && t' == WithNewChunk(t))
        || (FirstUnused(t, 1) < ARENAS && exists size :: t' == WithLarge(t, size)))
  }

  lemma TableGrown(h: Whole, maxes: map<int, int>, size: nat, mapped: bool)
    requires TableHolds(h.table) && size > 0
    ensures |h.table| == ARENAS && Grown(h.table, TableFor(h, maxes, size, mapped))
  {
    NewChunkExact(h.table);
    hide NewChunkPos, WithNewChunk, TableHolds;
  }

  lemma GrowJoint(k: Kernel, w: World, p: int, t: seq<Arena>, t': seq<Arena>)
    requires Keeping(k) && Inv(w) && SameRows(w, t) && TableHolds(t) && p in w.caches && Grown(t, t')
    ensures WellFormed(w) && |t'| == |t| == ARENAS && ARENAS > 1
    ensures var w1 := Grow(k, w, p, t, t'); Inv(w1) && SameRows(w1, t') && w1.caches.Keys == w.caches.Keys
  {
    hide *;
    WellFormedInv(w);
    KernelAnswers(k, w, p);
    GrownRow(t, t');
    GrowIs(k, w, p, t, t');
    var e := FirstUnused(t, 1);
    if e < ARENAS && t'[e].kind != EmptyArena {
      var kind, id, addr := t'[e].kind, k.name(w), k.where(w, p);
      NewArenaInv(w, p, kind, id, addr);
      NewArenaJoint(w, t, p, kind, 0, id, addr);
      NewArenaKeeps(w, p, kind, id, addr);
      FreshKind(kind, e);
      SameKinds(NewArena(w, p, kind, id, addr).w, t[e := FreshArena(kind, e, 0)], t');
    } else {
      SameKinds(w, t, t');
    }
  }

  lemma KernelAnswers(k: Kernel, w: World, p: int)
    requires Keeping(k) && Inv(w) && p in w.caches
    ensures FreeId(w, k.name(w)) && FreeAddress(w, p, k.where(w, p))
  {
  }

  lemma GrowIs(k: Kernel, w: World, p: int, t: seq<Arena>, t': seq<Arena>)
    requires WellFormed(w) && p in w.caches && 1 <= |t| == |t'|
    ensures var e := FirstUnused(t, 1);
      if e < |t| && t'[e].kind != EmptyArena
      then var r := NewArena(w, p, t'[e].kind, k.name(w), k.where(w, p)); r.Done? ==> Grow(k, w, p, t, t') == r.w
      else Grow(k, w, p, t, t') == w
  {
  }

  lemma FreshKind(kind: ArenaKind, e: nat)
    ensures FreshArena(kind, e, 0).kind == kind && SHM_NULL == 0
  {
  }

  lemma SameKinds(w: World, t: seq<Arena>, t': seq<Arena>)
    requires SameRows(w, t) && |t'| == |t| && forall i :: 0 <= i < |t| ==> t'[i].kind == t[i].kind
    ensures SameRows(w, t')
  {
  }

  /** The rows a request leaves: all as they were, but for the first empty one perhaps. */
  lemma GrownRow(t: seq<Arena>, t': seq<Arena>)
    requires Grown(t, t')
    ensures |t'| == |t| == ARENAS && ARENAS > 1
    ensures forall i :: 0 <= i < ARENAS && i != FirstUnused(t, 1) ==> t'[i].kind == t[i].kind
    ensures var e := FirstUnused(t, 1);
      e < ARENAS ==> t'[e].kind == EmptyArena || t'[e].kind == ChunkArena || t'[e].kind == LargeArena
  {
  }

  /** free_arena on the side of the mappings. */
  function Shrink(k: Kernel, w: World, p: int, t': seq<Arena>, index: nat): Outcome
    requires WellFormed(w) && p in w.caches
  {
    if index >= ARENAS then Done(w, 0)
    else FreeArena(w, p, index, index < |t'| && t'[index].kind == EmptyArena, k.where(GivenUp(w, p, index), p))
  }

  lemma ShrinkJoint(k: Kernel, w: World, p: int, t: seq<Arena>, t': seq<Arena>, index: nat, offset: nat)
    requires Keeping(k) && Inv(w) && SameRows(w, t) && TableHolds(t) && p in w.caches && Shrunk(t, t', index, offset)
    ensures WellFormed(w) && |t| == ARENAS
    ensures var r := Shrink(k, w, p, t', index);
      && (r.Aborted? <==> LargeRow(t, index) && w.caches[p][index].addr == NOWHERE)
      && (r.Done? ==> Inv(r.w) && SameRows(r.w, t') && r.w.caches.Keys == w.caches.Keys)
      && (r.Done? ==> SameLost(w, r.w) && (RowGone(t, t', index) ==> ArenaGone(w, r.w, p, index)))
  {
    WellFormedInv(w);
    hide *;
    AllSame(w);
    GoneIs(t, t', index);
    WellFormedInv(w);
    ShrunkRow(t, t', index, offset);
    ShrinkIs(k, w, p, t', index);
    RowKind(w, t, index);
    if index < ARENAS {
      LookKeeps(k, w, p, index);
      FreeArenaExact(w, p, index, t'[index].kind == EmptyArena, k.where(GivenUp(w, p, index), p));
      ResolveMaps(w, p, index, k.where(GivenUp(w, p, index), p));
      GoneLost(w, Shrink(k, w, p, t', index), p, index);
      var r := Shrink(k, w, p, t', index);
      if r.Done? { ShrunkKinds(w, r.w, t, t', index); }
    } else {
      SameKinds(w, t, t');
    }
  }

  /** The row has become empty. */
  ghost predicate RowGone(t: seq<Arena>, t': seq<Arena>, index: nat) {
    index < |t| && index < |t'| && t[index].kind != EmptyArena && t'[index].kind == EmptyArena
  }

  lemma GoneIs(t: seq<Arena>, t': seq<Arena>, index: nat)
    ensures RowGone(t, t', index) <==>
      index < |t| && index < |t'| && t[index].kind != EmptyArena && t'[index].kind == EmptyArena
    ensures index < |t| ==> var k := t[index].kind; k.EmptyArena? || k.ContextArena? || k.ChunkArena? || k.LargeArena?
  {
  }

  lemma GoneLost(w: World, r: Outcome, p: int, index: nat)
    ensures r.Done? && ArenaGone(w, r.w, p, index) ==> SameLost(w, r.w)
  {
    hide Dropped, SameLost;
  }

  lemma ShrinkIs(k: Kernel, w: World, p: int, t': seq<Arena>, index: nat)
    requires WellFormed(w) && p in w.caches
    ensures index >= ARENAS || !ArenaValid(w, index) ==> Shrink(k, w, p, t', index) == Done(w, 0)
    ensures index < ARENAS && index < |t'| ==>
      var last, addr := t'[index].kind == EmptyArena, k.where(GivenUp(w, p, index), p);
      Shrink(k, w, p, t', index) == FreeArena(w, p, index, last, addr)
  {
  }

  lemma RowKind(w: World, t: seq<Arena>, index: nat)
    requires SameRows(w, t)
    ensures |w.table| == |t| && (index < |t| ==> w.table[index].kind == t[index].kind)
    ensures LargeRow(t, index) <==> index < |t| && t[index].kind == LargeArena
    ensures ArenaValid(w, index) <==> index < |t| && t[index].kind != EmptyArena
  {
  }

  lemma ShrunkKinds(w: World, w': World, t: seq<Arena>, t': seq<Arena>, index: nat)
    requires SameRows(w, t) && index < |t| == |t'| && forall i :: 0 <= i < |t| && i != index ==> t'[i].kind == t[i].kind
    requires if t'[index].kind == t[index].kind then w'.table == w.table
      else t'[index].kind == EmptyArena && index < |w.table| && w'.table == w.table[index := NO_ARENA]
    ensures SameRows(w', t')
  {
  }

  /** The process has no address for a large arena. */
  ghost predicate NoAddress(w: World, t: seq<Arena>, p: int, index: nat) {
    LargeRow(t, index) && p in w.caches && index < |w.caches[p]| && w.caches[p][index].addr == NOWHERE
  }

  /** The rows a free leaves: all as they were, but the one of the position may be empty. */
  lemma ShrunkRow(t: seq<Arena>, t': seq<Arena>, index: nat, offset: nat)
    requires TableHolds(t) && Shrunk(t, t', index, offset)
    ensures |t'| == |t| == ARENAS && forall i :: 0 <= i < ARENAS && i != index ==> t'[i].kind == t[i].kind
    ensures index < ARENAS && t'[index].kind != t[index].kind ==> t'[index].kind == EmptyArena
    ensures index < ARENAS && t[index].kind == LargeArena ==> t'[index].kind == EmptyArena
    ensures index < ARENAS && t[index].kind == ContextArena ==> t'[index].kind == ContextArena
  {
  }

  lemma SameTable(w: World, w': World, t: seq<Arena>)
    requires SameRows(w, t) && w'.table == w.table
    ensures SameRows(w', t)
  {
  }

  /** The address of an arena stays known when the process looks at another one. */
  lemma LookStays(k: Kernel, w: World, p: int, i: nat, j: nat)
    requires Keeping(k) && Inv(w) && p in w.caches && i < ARENAS && j < ARENAS && ArenaValid(w, i)
    requires WellFormed(w) && w.caches[p][i].addr != NOWHERE
    ensures var w1 := Look(k, w, p, j);
      && Inv(w1) && w1.table == w.table && w1.caches.Keys == w.caches.Keys && WellFormed(w1)
      && w1.caches[p][i].addr != NOWHERE
  {
    LookKeeps(k, w, p, j);
    WellFormedInv(Look(k, w, p, j));
    hide Inv, Keeping;
  }

  /** The end of a move on the side of the mappings: both addresses are asked for, and the old block is
      freed. */
  function MoveWorld(k: Kernel, w: World, p: int, t': seq<Arena>, index: nat, to: nat): World
    requires WellFormed(w) && p in w.caches && index < ARENAS && to < ARENAS
  {
    var w1 := Look(k, w, p, index);
    if !WellFormed(w1) || p !in w1.caches then w1
    else
      var w2 := Look(k, w1, p, to);
      if !WellFormed(w2) || p !in w2.caches then w2
      else
        match Shrink(k, w2, p, t', index)
        case Aborted => w2
        case Done(w3, _) => w3
  }

  lemma MoveJoint(k: Kernel, w: World, p: int, t: seq<Arena>, t': seq<Arena>, index: nat, to: nat, offset: nat)
    requires Keeping(k) && Inv(w) && p in w.caches && SameRows(w, t) && TableHolds(t) && Shrunk(t, t', index, offset)
    requires index < ARENAS && to < ARENAS && ArenaValid(w, index)
    ensures WellFormed(w)
    ensures var w' := MoveWorld(k, w, p, t', index, to);
      Inv(w') && SameRows(w', t') && w'.caches.Keys == w.caches.Keys
  {
    hide *;
    WellFormedInv(w);
    LookKeeps(k, w, p, index);
    var w1 := Look(k, w, p, index);
    WellFormedInv(w1);
    SameValid(w, w1, index);
    LookStays(k, w1, p, index, to);
    var w2 := Look(k, w1, p, to);
    SameTable(w, w2, t);
    ShrinkJoint(k, w2, p, t, t', index, offset);
    MoveIs(k, w, p, t', index, to);
  }

  lemma MoveIs(k: Kernel, w: World, p: int, t': seq<Arena>, index: nat, to: nat)
    requires WellFormed(w) && p in w.caches && index < ARENAS && to < ARENAS
    requires WellFormed(Look(k, w, p, index)) && p in Look(k, w, p, index).caches
    ensures var w2 := Look(k, Look(k, w, p, index), p, to);
      WellFormed(w2) && p in w2.caches && Shrink(k, w2, p, t', index).Done? ==>
        MoveWorld(k, w, p, t', index, to) == Shrink(k, w2, p, t', index).w
  {
  }

  /** What shm_realloc does to the mappings, whether or not the block moves. */
  lemma ResizeJoint(k: Kernel, w: World, p: int, walk: seq<nat>, t: seq<Arena>, between: seq<Arena>, t': seq<Arena>,
      index: nat, offset: nat, to: nat, moved: bool)
    requires Keeping(k) && Inv(w) && SameRows(w, t) && TableHolds(t) && p in w.caches && Grown(t, between)
    requires index < ARENAS && to < ARENAS && ArenaValid(w, index)
    requires if moved then TableHolds(between) && Shrunk(between, t', index, offset) else t' == between
    ensures WellFormed(w) && |t| == |between| == ARENAS && ARENAS > 1
    ensures var w1 := LookAll(k, w, p, walk); WellFormed(w1) && p in w1.caches
    ensures var w2 := Grow(k, LookAll(k, w, p, walk), p, t, between);
      && WellFormed(w2) && p in w2.caches
      && var w' := if moved then MoveWorld(k, w2, p, t', index, to) else w2;
        Inv(w') && SameRows(w', t') && w'.caches.Keys == w.caches.Keys
  {
    hide *;
    LookAllKeeps(k, w, p, walk);
    var w1 := LookAll(k, w, p, walk);
    WellFormedInv(w1);
    SameTable(w, w1, t);
    RowKind(w, t, index);
    GrowJoint(k, w1, p, t, between);
    var w2 := Grow(k, w1, p, t, between);
    WellFormedInv(w2);
    GrownRow(t, between);
    NotFirst(t, index);
    RowKind(w2, between, index);
    if moved { MoveJoint(k, w2, p, between, t', index, to, offset); }
  }

  lemma NotFirst(t: seq<Arena>, i: nat)
    requires 1 <= |t| && i < |t| && t[i].kind != EmptyArena
    ensures i != FirstUnused(t, 1)
  {
  }

  lemma SameValid(w: World, w': World, i: nat)
    requires w'.table == w.table
    ensures ArenaValid(w', i) <==> ArenaValid(w, i)
  {
  }
}
