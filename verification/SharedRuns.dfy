/** Runs of the calls of src/shm_malloc.c, of any processes, from nothing: the heap and the mappings of
    all processes move together. */
module SharedRuns {
  import opened Basics
  import opened RedBlackMemory
  import opened MappingCache
  import opened ArenaTable
  import opened WholeHeap
  import opened WholeFree
  import opened HeapMappings
  import opened KernelSteps
  import opened CallSteps
  import opened Context
  import opened SharedMalloc
  import R = SmallRun
  import S = SmallState
  import C = MediumChunk
  import M = MediumPool

  // ----- what every call keeps -----

  ghost predicate Ready(context: Context, w: World)
    reads context, context.table, context.small, context.smallRepr, context.medium, context.medium.pool
    reads context.medium.repr
  {
    context.Valid() && Joint(w, context.w) && S.OneSpare(context.w.small)
  }

  lemma ReadyIs(context: Context, w: World)
    ensures Ready(context, w) <==>
      && context.Valid() && Inv(w) && WholeHolds(context.w) && SameRows(w, context.w.table)
      && S.OneSpare(context.w.small)
    ensures Ready(context, w) <==> context.Valid() && Joint(w, context.w) && S.OneSpare(context.w.small)
  {
  }

  /** The state of heap, mappings and record. */
  ghost function Now(context: Context, w: World, held: map<int, nat>): State
    reads context, context.small, context.medium
  {
    State(context.w, context.medium.maxes, context.small.linked, w, held)
  }

  lemma NowIs(context: Context, w: World, held: map<int, nat>)
    ensures Now(context, w, held) == State(context.w, context.medium.maxes, context.small.linked, w, held)
  {
  }

  // ----- the calls -----

  /** shm_malloc in process `p`. */
  method Allocate(context: Context, k: Kernel, w: World, p: int, walk: seq<nat>, size: nat, mapped: bool,
      pages: Memory<C.MediumKey>, held: map<int, nat>)
    returns (w': World, r: C.MallocResult, held': map<int, nat>)
    requires Ready(context, w) && Keeping(k) && p in w.caches && Owned(context.w, held)
    requires ENODE !in pages && forall n :: 1 <= n < UNITS ==> n in pages
    modifies context`w, context`smallRepr, context.table, context.smallRepr, context.medium, context.medium.pool
    modifies context.medium.repr
    ensures Ready(context, w') && Owned(context.w, held') && w'.caches.Keys == w.caches.Keys
    ensures fresh(context.smallRepr - old(context.smallRepr)) && fresh(context.medium.repr - old(context.medium.repr))
    ensures old(context.Exact()) ==> context.Exact() && r.Allocated?
    ensures C.Written(context.medium.cmp) ==> (r.AssertionFailed? <==> old(RefusesPages(context, size)))
    ensures C.Written(context.medium.cmp) && r.AssertionFailed? ==> RefusesPages(context, size)
    ensures var s := old(Now(context, w, held));
      Asked(k, context.small.clears, p, walk, size, mapped, r, s, Now(context, w', held'))
  {
    hide *;
    NowIs(context, w, held);
    ghost var s := Now(context, w, held);
    ReadyIs(context, w);
    LookAllKeeps(k, w, p, walk);
    SameTable(w, LookAll(k, w, p, walk), context.w.table);
    context.Parts();
    context.TableOf(context.w);
    RefusesIs(context, size);
    context.SmallLimit();
    w', r, held' := w, C.Allocated(0), held;
    if size == 0 {
      NothingAsked(k, context.small.clears, p, walk, mapped, s);
    } else {
      TableGrown(context.w, context.medium.maxes, size, mapped);
      var t := context.table.arenas;
      ghost var h := context.w;
      ghost var len;
      r, len := ShmMalloc(context, size, mapped, pages);
      context.Parts();
      TableIsFor(h, s.maxes, context.table.arenas, size, mapped, r);
      NewIs(r);
      GrowJoint(k, LookAll(k, w, p, walk), p, t, context.table.arenas);
      w' := Grow(k, LookAll(k, w, p, walk), p, t, context.table.arenas);
      OwnedAfter(h, context.w, held, size, r, len);
      if r.Allocated? && r.pos != 0 { held' := held[r.pos := size]; }
      ReadyIs(context, w');
      NowIs(context, w', held');
      AskedIs(k, context.small.clears, p, walk, size, mapped, r, s, Now(context, w', held'), len);
    }
  }

  lemma NothingAsked(k: Kernel, clears: bool, p: int, walk: seq<nat>, mapped: bool, s: State)
    ensures Asked(k, clears, p, walk, 0, mapped, C.Allocated(0), s, s)
  {
  }

  lemma AskedIs(k: Kernel, clears: bool, p: int, walk: seq<nat>, size: nat, mapped: bool, r: C.MallocResult,
      s: State, s': State, len: int)
    requires size > 0 && TablesFor(s.heap, s.maxes, s'.heap.table, size, mapped, r)
    requires Allocates(s.heap, s'.heap, size, r, len) && LinksStep(s.heap.small, s.linked, s'.linked, size, r, clears)
    requires if IsNew(r) then r.pos !in s.held && s'.held == s.held[r.pos := size] else s'.held == s.held
    requires WellFormed(s.world) && p in s.world.caches && 1 <= |s.heap.table| == |s'.heap.table|
    requires var w1 := LookAll(k, s.world, p, walk);
      WellFormed(w1) && p in w1.caches && s'.world == Grow(k, w1, p, s.heap.table, s'.heap.table)
    ensures Asked(k, clears, p, walk, size, mapped, r, s, s')
  {
    hide TablesFor, Allocates, LinksStep, LookAll, Grow, WellFormed;
  }

  /** What a position that is held says about its arena, and that its block may be freed. */
  lemma OwnedIndex(context: Context, w: World, p: int, held: map<int, nat>, pos: nat) returns (len: int)
    requires Ready(context, w) && p in w.caches && Owned(context.w, held) && pos in held
    ensures var i, o := pos / ARENA_SPAN, pos % ARENA_SPAN;
      && i < ARENAS == |context.w.table| && o < ARENA_SPAN && Pos(i, o) == pos && |context.table.arenas| == ARENAS
      && (LargeRow(context.w.table, i) <==> context.table.arenas[i].kind == LargeArena)
      && WellFormed(w) && |w.caches[p]| == ARENAS && ArenaValid(w, i)
      && (NoAddress(w, context.w.table, p, i) <==> LargeRow(context.w.table, i) && w.caches[p][i].addr == NOWHERE)
      && (context.MayFree(i, o) <==> !context.InLinked(i, o)) && context.Held(i, o)
      && (!context.InLinked(i, o) ==> pos > 0)
    ensures LiveAt(context.w, pos, len) && 0 < held[pos] <= len
    ensures Named(context.w, pos / ARENA_SPAN, pos % ARENA_SPAN) == pos
  {
    hide *;
    context.Constants();
    var i, o := pos / ARENA_SPAN, pos % ARENA_SPAN;
    ReadyIs(context, w);
    context.Parts();
    IndexOffset(pos);
    len := OwnedLen(context.w, held, pos);
    HeldIndex(context.w, i, o, len);
    context.HeldMayFree(i, o, len);
    RowKind(w, context.w.table, i);
    WellFormedInv(w);
    CacheRow(w, p, i, context.w.table);
    HeldNamed(context.w, i, o, len);
    if !context.InLinked(i, o) { context.NotReserved(i, o); }
  }

  lemma CacheRow(w: World, p: int, i: nat, t: seq<Arena>)
    requires WellFormed(w) && p in w.caches && i < ARENAS
    ensures |w.caches[p]| == ARENAS
    ensures NoAddress(w, t, p, i) <==> LargeRow(t, i) && w.caches[p][i].addr == NOWHERE
  {
  }

  lemma HeldNamed(h: Whole, i: nat, o: nat, len: int)
    requires WholeHolds(h) && o < ARENA_SPAN && LiveAt(h, Pos(i, o), len)
    ensures Named(h, i, o) == Pos(i, o)
  {
    hide LiveAt, WholeHolds;
    RowCount(h);
    if LargeRow(h.table, i) { LargeBlockThere(h, i, o, len); }
  }

  /** shm_free in process `p`. It stops exactly if the block is large and the process has no address
      for it; a free of a small or medium block looks at other arenas first. */
  method Release(context: Context, k: Kernel, w: World, p: int, walk: seq<nat>, pos: nat, held: map<int, nat>)
    returns (w': World, stopped: bool, held': map<int, nat>)
    requires Ready(context, w) && Keeping(k) && p in w.caches && Owned(context.w, held)
    requires pos in held && !context.InLinked(pos / ARENA_SPAN, pos % ARENA_SPAN)
    modifies context`w, context.table, context.smallRepr, context.medium, context.medium.pool, context.medium.repr
    ensures Ready(context, w') && Owned(context.w, held') && w'.caches.Keys == w.caches.Keys
    ensures context.medium.repr == old(context.medium.repr) && (old(context.Exact()) ==> context.Exact())
    ensures context.small.linked == old(context.small.linked)
    ensures stopped <==> NoAddress(w, old(context.w).table, p, pos / ARENA_SPAN)
    ensures var s := old(Now(context, w, held));
      if stopped then Now(context, w', held') == s else Ended(k, p, walk, pos, s, Now(context, w', held'))
  {
    hide *;
    NowIs(context, w, held);
    ghost var s := Now(context, w, held);
    ReadyIs(context, w);
    context.Constants();
    context.Parts();
    context.TableOf(context.w);
    ghost var len := OwnedIndex(context, w, p, held, pos);
    var index := pos / ARENA_SPAN;
    var large := context.table.arenas[index].kind == LargeArena;
    w', stopped, held' := w, false, held;
    if large && w.caches[p][index].addr == NOWHERE {
      stopped := true;
      return;
    }
    ghost var t, h := context.table.arenas, context.w;
    ShmFree(context, pos);
    context.Parts();
    FreedNamed(h, context.w, index, pos % ARENA_SPAN, len);
    OwnedLess(h, context.w, held, pos, len);
    held' := held - {pos};
    LookAllKeeps(k, w, p, walk);
    WellFormedInv(LookAll(k, w, p, walk));
    SameTable(w, LookAll(k, w, p, walk), t);
    w' := if large then w else LookAll(k, w, p, walk);
    ShrinksTable(h, context.w, index, pos % ARENA_SPAN);
    ShrinkJoint(k, w', p, t, context.table.arenas, index, pos % ARENA_SPAN);
    w' := Shrink(k, w', p, context.table.arenas, index).w;
    ReadyIs(context, w');
    NowIs(context, w', held');
    EndedIs(k, p, walk, pos, s, Now(context, w', held'), len);
  }

  lemma EndedIs(k: Kernel, p: int, walk: seq<nat>, pos: nat, s: State, s': State, len: int)
    requires ARENA_SPAN > 0 && WellFormed(s.world) && p in s.world.caches
    requires OneMore(s'.heap, s.heap, pos, len) && s'.held == s.held - {pos} && s'.linked == s.linked
    requires Shrinks(s.heap, s'.heap, pos / ARENA_SPAN, pos % ARENA_SPAN)
    requires var w1 := LookAll(k, s.world, p, walk); WellFormed(w1) && p in w1.caches
    requires var i := pos / ARENA_SPAN;
      var w1 := if LargeRow(s.heap.table, i) then s.world else LookAll(k, s.world, p, walk);
      var r := Shrink(k, w1, p, s'.heap.table, i);
      r.Done? && s'.world == r.w
    ensures Ended(k, p, walk, pos, s, s')
  {
    hide OneMore, Shrinks, LookAll, Shrink, WellFormed, LargeRow;
  }

  /** The block at a position is too short, and its length is known. */
  ghost predicate Growing(context: Context, pos: nat, size: nat)
    reads context, context.table, context.small
  {
    exists l :: MustGrow(context, pos / ARENA_SPAN, pos % ARENA_SPAN, size, l)
  }

  /** It would have to move, and the request for the longer block fails its assertions. */
  ghost predicate RefusesGrowth(context: Context, pos: nat, size: nat)
    reads context, context.table, context.small, context.medium, context.medium.pool, context.medium.repr
  {
    Growing(context, pos, size) && RefusesPages(context, size)
  }

  lemma GrowthIs(context: Context, pos: nat, size: nat)
    requires ARENA_SPAN > 0
    ensures Growing(context, pos, size) <==> exists l :: MustGrow(context, pos / ARENA_SPAN, pos % ARENA_SPAN, size, l)
    ensures RefusesGrowth(context, pos, size) <==> Growing(context, pos, size) && RefusesPages(context, size)
  {
  }

  lemma MayResize(context: Context, index: nat, offset: nat, size: nat)
    requires context.MayFree(index, offset)
    ensures MayRealloc(context, index, offset, size)
  {
  }

  /** What shm_realloc does to the record of blocks. */
  lemma ResizeHeap(h: Whole, h': Whole, held: map<int, nat>, pos: int, size: nat, r: C.MallocResult, len: int,
      grows: bool)
    requires Owned(h, held) && pos in held && pos != 0 && WholeHolds(h')
    requires if grows then size > 0 && Regrown(h, h', pos, size, r, len) else r == C.Allocated(pos) && h' == h
    ensures if r.Allocated? && r.pos != 0 && r.pos != pos
      then grows && r.pos !in held && Owned(h', (held - {pos})[r.pos := size]) && 0 <= r.pos / ARENA_SPAN < ARENAS
      else Owned(h', held) && (grows ==> r == C.Allocated(0) || r.AssertionFailed?)
  {
    hide LiveAt, Owned, SameLive, Moved, WholeHolds;
    if r.AssertionFailed? {
      OwnedSame(h, h', held);
    } else if grows && r.pos != 0 {
      OwnedMoved(h, h', held, pos, r.pos, len, size);
      MovedHeld(h, h', pos, r.pos, len);
      HeldArena(h', r.pos, len);
    }
  }

  lemma MovedHeld(h: Whole, h': Whole, pos: int, to: int, len: int)
    requires Moved(h, h', pos, to, len)
    ensures LiveAt(h', to, len) && pos != to
  {
    hide LiveAt;
  }

  lemma SameGrown(t: seq<Arena>)
    requires |t| == ARENAS
    ensures Grown(t, t)
  {
  }

  /** shm_realloc in process `p`. It asks for the addresses of both blocks before it copies, so the free
      in it never stops. */
  method Resize(context: Context, k: Kernel, w: World, p: int, walk: seq<nat>, pos: nat, size: nat, header: nat,
      mapped: bool, pages: Memory<C.MediumKey>, held: map<int, nat>)
    returns (w': World, r: C.MallocResult, held': map<int, nat>)
    requires Ready(context, w) && Keeping(k) && p in w.caches && Owned(context.w, held)
    requires pos in held && !context.InLinked(pos / ARENA_SPAN, pos % ARENA_SPAN)
    requires ENODE !in pages && forall n :: 1 <= n < UNITS ==> n in pages
    modifies context`w, context`smallRepr, context.table, context.smallRepr, context.medium, context.medium.pool
    modifies context.medium.repr
    ensures Ready(context, w') && Owned(context.w, held') && w'.caches.Keys == w.caches.Keys
    ensures fresh(context.smallRepr - old(context.smallRepr)) && fresh(context.medium.repr - old(context.medium.repr))
    ensures old(context.Exact()) ==> context.Exact() && r.Allocated?
    ensures C.Written(context.medium.cmp) ==> (r.AssertionFailed? <==> old(RefusesGrowth(context, pos, size)))
    ensures C.Written(context.medium.cmp) && r.AssertionFailed? ==> RefusesPages(context, size)
    ensures var s := old(Now(context, w, held));
      Resized(k, context.small.clears, p, walk, pos, size, mapped, r, s, Now(context, w', held'))
  {
    hide *;
    NowIs(context, w, held);
    ghost var s := Now(context, w, held);
    ReadyIs(context, w);
    context.Constants();
    context.Parts();
    context.TableOf(context.w);
    ghost var len := OwnedIndex(context, w, p, held, pos);
    var index := pos / ARENA_SPAN;
    ghost var grows := Growing(context, pos, size);
    GrowthIs(context, pos, size);
    GrowingIs(context, pos, size);
    MayResize(context, index, pos % ARENA_SPAN, size);
    if size > 0 { TableGrown(context.w, context.medium.maxes, size, mapped); }
    var t := context.table.arenas;
    ghost var h := context.w;
    var between;
    ghost var l, mid;
    r, between, mid, l := ShmRealloc(context, pos, size, header, mapped, pages);
    context.Parts();
    NewIs(r);
    if grows {
      TableIsFor(h, s.maxes, between, size, mapped, r);
      ReleasedIs(mid, index, pos % ARENA_SPAN, r);
      if IsNew(r) {
        ShrinksTable(mid, context.w, index, pos % ARENA_SPAN);
        context.TableOf(mid);
      }
      AsBoth(h, context.w, mid, pos, size, r, l);
    } else {
      SameGrown(t);
    }
    ResizeHeap(h, context.w, held, pos, size, r, l, grows);
    var moved := r.Allocated? && r.pos != 0 && r.pos != pos;
    ghost var to := if moved then r.pos / ARENA_SPAN else 0;
    ResizeJoint(k, w, p, walk, t, between, context.table.arenas, index, pos % ARENA_SPAN, to, moved);
    held' := held;
    w' := Grow(k, LookAll(k, w, p, walk), p, t, between);
    if moved {
      held' := (held - {pos})[r.pos := size];
      w' := MoveWorld(k, w', p, context.table.arenas, index, r.pos / ARENA_SPAN);
    }
    ReadyIs(context, w');
    NowIs(context, w', held');
    if grows {
      ResizedIs(k, context.small.clears, p, walk, pos, size, mapped, r, s, Now(context, w', held'), between, l);
    } else {
      GrowSame(k, LookAll(k, w, p, walk), p, t);
      NotResized(k, context.small.clears, p, walk, pos, size, mapped, s, w');
    }
  }

  /** The test of shm_realloc, on the state. */
  lemma GrowingIs(context: Context, pos: nat, size: nat)
    requires context.Valid() && Named(context.w, pos / ARENA_SPAN, pos % ARENA_SPAN) == pos
    ensures Growing(context, pos, size) <==> TooShort(context.w, pos, size)
  {
    hide LiveAt, WholeHolds;
    context.Parts();
    var i, o := pos / ARENA_SPAN, pos % ARENA_SPAN;
    KnownIs(context, i, o);
    hide LengthKnown;
    forall l ensures MustGrow(context, i, o, size, l) <==>
      LiveAt(context.w, pos, l) && size > l && LengthKnown(context.w, i, o) {
        SharedMalloc.GrowIs(context, i, o, size, l);
      }
    hide MustGrow;
  }

  lemma KnownIs(context: Context, i: nat, o: nat)
    requires context.table.arenas == context.w.table && context.small.chunks.Keys == context.w.small.pages.Keys
    ensures context.Answered(i, o) <==> LengthKnown(context.w, i, o)
  {
  }

  lemma NewIs(r: C.MallocResult)
    ensures IsNew(r) <==> r.Allocated? && r.pos != 0
  {
  }

  lemma GrowSame(k: Kernel, w: World, p: int, t: seq<Arena>)
    requires WellFormed(w) && p in w.caches && 1 <= |t|
    ensures Grow(k, w, p, t, t) == w
  {
  }

  lemma NotResized(k: Kernel, clears: bool, p: int, walk: seq<nat>, pos: nat, size: nat, mapped: bool, s: State,
      w': World)
    requires WellFormed(s.world) && p in s.world.caches && w' == LookAll(k, s.world, p, walk)
    requires WellFormed(w') && p in w'.caches && !TooShort(s.heap, pos, size)
    ensures Resized(k, clears, p, walk, pos, size, mapped, C.Allocated(pos), s, s.(world := w'))
  {
  }

  lemma ResizedIs(k: Kernel, clears: bool, p: int, walk: seq<nat>, pos: nat, size: nat, mapped: bool, r: C.MallocResult,
      s: State, s': State, t: seq<Arena>, len: int)
    requires ARENA_SPAN > 0 && ARENAS > 1 && WellFormed(s.world) && p in s.world.caches && TooShort(s.heap, pos, size)
    requires size > 0 && |s.heap.table| == |t| == ARENAS && pos / ARENA_SPAN < ARENAS
    requires TablesFor(s.heap, s.maxes, t, size, mapped, r)
    requires AllocatesThenFrees(s.heap, s'.heap, t, pos, size, r)
    requires Regrown(s.heap, s'.heap, pos, size, r, len)
    requires LinksStep(s.heap.small, s.linked, s'.linked, size, r, clears)
    requires var w1 := LookAll(k, s.world, p, walk); WellFormed(w1) && p in w1.caches
    requires var w2 := Grow(k, LookAll(k, s.world, p, walk), p, s.heap.table, t);
      && WellFormed(w2) && p in w2.caches
      && if IsNew(r)
        then
          && r.pos !in s.held && s'.held == (s.held - {pos})[r.pos := size] && 0 <= r.pos / ARENA_SPAN < ARENAS
          && s'.world == MoveWorld(k, w2, p, s'.heap.table, pos / ARENA_SPAN, r.pos / ARENA_SPAN)
        else s'.held == s.held && s'.world == w2
    ensures Resized(k, clears, p, walk, pos, size, mapped, r, s, s')
  {
    TableIsFor(s.heap, s.maxes, t, size, mapped, r);
    hide TablesFor, AllocatesThenFrees, Regrown, LinksStep, LookAll, Grow, MoveWorld, WellFormed, TooShort, TableFor;
  }

  lemma AsBoth(h: Whole, h': Whole, mid: Whole, pos: nat, size: nat, r: C.MallocResult, len: int)
    requires ARENA_SPAN > 0 && Allocates(h, mid, size, r, len)
    requires Released(mid, h', pos / ARENA_SPAN, pos % ARENA_SPAN, r)
    ensures AllocatesThenFrees(h, h', mid.table, pos, size, r)
  {
  }

  lemma TableIsFor(h: Whole, maxes: map<int, int>, t: seq<Arena>, size: nat, mapped: bool, r: C.MallocResult)
    requires TablesFor(h, maxes, t, size, mapped, r)
    ensures |h.table| == ARENAS && size > 0 && t == TableFor(h, maxes, size, mapped)
  {
  }

  /** A user writes into a block it holds. */
  method Write(context: Context, w: World, pos: nat, from: nat, to: nat, word: int, recs: int -> NodeRec<C.MediumKey>,
      held: map<int, nat>)
    requires Ready(context, w) && Owned(context.w, held) && pos in held && from < to <= held[pos]
    modifies context`w, context.small`runs, context.small`state, context.medium.repr
    ensures Ready(context, w) && Owned(context.w, held) && context.medium.repr == old(context.medium.repr)
    ensures old(context.Exact()) ==> context.Exact()
    ensures Wrote(old(Now(context, w, held)), Now(context, w, held))
  {
    hide *;
    NowIs(context, w, held);
    ghost var s := Now(context, w, held);
    context.Constants();
    ReadyIs(context, w);
    context.Parts();
    IndexOffset(pos);
    ghost var len := OwnedLen(context.w, held, pos);
    ghost var h := context.w;
    context.UserWrite(pos / ARENA_SPAN, pos % ARENA_SPAN, from, to, word, recs);
    context.Parts();
    OwnedSame(h, context.w, held);
    ReadyIs(context, w);
    NowIs(context, w, held);
    WroteIs(s, Now(context, w, held));
  }

  lemma WroteIs(s: State, s': State)
    requires SameLive(s.heap, s'.heap) && s' == s.(heap := s'.heap)
    requires s'.heap.table == s.heap.table && s'.heap.medium == s.heap.medium
    ensures Wrote(s, s')
  {
  }

  /** shm_get_addr in process `p`. */
  method Address(k: Kernel, w: World, ghost s: State, p: int, pos: nat) returns (w': World, base: int)
    requires Keeping(k) && Joint(w, s.heap) && p in w.caches && s.world == w
    ensures Joint(w', s.heap) && w'.caches.Keys == w.caches.Keys && Looked(k, p, pos, base, s, s.(world := w'))
  {
    w', base := w, NOWHERE;
    if pos / ARENA_SPAN < ARENAS {
      hide Inv, WholeHolds, Resolve, Look, Keeping, GivenUp;
      WellFormedInv(w);
      LookKeeps(k, w, p, pos / ARENA_SPAN);
      var addr := k.where(GivenUp(w, p, pos / ARENA_SPAN), p);
      ResolveExact(w, p, pos / ARENA_SPAN, addr);
      var r := Resolve(w, p, pos / ARENA_SPAN, addr);
      w', base := r.w, r.result;
    }
  }

  /** shm_init in a process that has not joined yet. */
  method Enter(w: World, ghost h: Whole, p: int, addrs: seq<int>) returns (w': World)
    requires Joint(w, h) && p !in w.caches && FreshAddresses(addrs)
    ensures Joint(w', h) && w'.caches.Keys == w.caches.Keys + {p}
    ensures WellFormed(w) && |addrs| == ARENAS && w' == Join(w, p, addrs)
  {
    hide Inv, WholeHolds, Join;
    WellFormedInv(w);
    JoinKeeps(w, p, addrs);
    w' := Join(w, p, addrs);
  }

  // ----- runs -----

  /** The process takes part and the block is held, and not in a run that keeps links. */
  ghost predicate Legal(context: Context, w: World, held: map<int, nat>, p: int, pos: nat)
    reads context.small
  {
    p in w.caches && pos in held && !context.InLinked(pos / ARENA_SPAN, pos % ARENA_SPAN)
  }

  /** The call stops its process. */
  ghost predicate Stops(context: Context, w: World, held: map<int, nat>, c: Call)
    reads context, context.table, context.small, context.medium, context.medium.pool, context.medium.repr
  {
    match c
    case Asks(p, _, size, _, _) => p in w.caches && RefusesPages(context, size)
    case Frees(p, _, pos) => Legal(context, w, held, p, pos) && NoAddress(w, context.w.table, p, pos / ARENA_SPAN)
    case Resizes(p, _, pos, size, _, _, _) =>
      if pos == 0 then p in w.caches && RefusesPages(context, size)
      else Legal(context, w, held, p, pos) && RefusesGrowth(context, pos, size)
    case _ => false
  }

  /** What is still so when a call has stopped its process. */
  ghost predicate StoppedBy(context: Context, w: World, held: map<int, nat>, c: Call)
    reads context, context.medium, context.medium.pool, context.medium.repr
  {
    match c
    case Asks(p, _, size, _, _) => p in w.caches && RefusesPages(context, size)
    case Frees(p, _, pos) => pos in held && NoAddress(w, context.w.table, p, pos / ARENA_SPAN)
    case Resizes(p, _, _, size, _, _, _) => p in w.caches && RefusesPages(context, size)
    case _ => false
  }

  /** shm_realloc of null or of a block that may be moved. */
  method MakeResize(context: Context, k: Kernel, w: World, c: Call, held: map<int, nat>)
    returns (w': World, r: C.MallocResult, held': map<int, nat>)
    requires Ready(context, w) && Keeping(k) && Owned(context.w, held) && Proper(c)
    requires c.Resizes? && !NotMade(c, Now(context, w, held))
    modifies context`w, context`smallRepr, context.table, context.smallRepr, context.medium, context.medium.pool
    modifies context.medium.repr
    ensures Ready(context, w') && Owned(context.w, held') && w'.caches.Keys == w.caches.Keys
    ensures fresh(context.smallRepr - old(context.smallRepr)) && fresh(context.medium.repr - old(context.medium.repr))
    ensures C.Written(context.medium.cmp) ==> (r.AssertionFailed? <==> old(Stops(context, w, held, c)))
    ensures C.Written(context.medium.cmp) && r.AssertionFailed? ==> StoppedBy(context, w', held', c)
    ensures old(context.Exact()) ==> context.Exact() && r.Allocated?
    ensures Does(k, context.small.clears, c, Gave(r), old(Now(context, w, held)), Now(context, w', held'))
  {
    hide *;
    context.Constants();
    NowIs(context, w, held);
    ghost var s := Now(context, w, held);
    CallIs(context, w, held, c);
    StopsIs(context, w, held, c);
    LinkedHere(context, c.pos);
    if c.pos == 0 {
      w', r, held' := Allocate(context, k, w, c.p, c.walk, c.size, c.mapped, c.pages, held);
    } else {
      w', r, held' := Resize(context, k, w, c.p, c.walk, c.pos, c.size, c.header, c.mapped, c.pages, held);
    }
    DoesIs(k, context.small.clears, c, Gave(r), s, Now(context, w', held'));
    StoppedIs(context, w', held', c);
  }

  /** shm_free of a block that may be freed. */
  method MakeFree(context: Context, k: Kernel, w: World, c: Call, held: map<int, nat>)
    returns (w': World, answer: Answer, held': map<int, nat>)
    requires Ready(context, w) && Keeping(k) && Owned(context.w, held) && Proper(c)
    requires c.Frees? && !NotMade(c, Now(context, w, held))
    modifies context`w, context.table, context.smallRepr, context.medium, context.medium.pool, context.medium.repr
    ensures Ready(context, w') && Owned(context.w, held') && w'.caches.Keys == w.caches.Keys
    ensures context.medium.repr == old(context.medium.repr) && (old(context.Exact()) ==> context.Exact())
    ensures !answer.Gave? && (Stopping(answer) <==> old(Stops(context, w, held, c)))
    ensures Stopping(answer) ==> StoppedBy(context, w', held', c)
    ensures Does(k, context.small.clears, c, answer, old(Now(context, w, held)), Now(context, w', held'))
  {
    hide *;
    context.Constants();
    NowIs(context, w, held);
    ghost var s := Now(context, w, held);
    CallIs(context, w, held, c);
    StopsIs(context, w, held, c);
    LinkedHere(context, c.pos);
    var stopped;
    w', stopped, held' := Release(context, k, w, c.p, c.walk, c.pos, held);
    answer := if stopped then NoAddressFor else CallSteps.Made;
    NowIs(context, w', held');
    AnswerIs(answer);
    DoesIs(k, context.small.clears, c, answer, s, Now(context, w', held'));
    StoppedIs(context, w', held', c);
  }

  /** Whether a call is passed over. */
  method Skipped(context: Context, w: World, c: Call, held: map<int, nat>) returns (b: bool)
    requires Ready(context, w) && Proper(c)
    ensures b <==> NotMade(c, Now(context, w, held))
  {
    hide *;
    context.Constants();
    ReadyIs(context, w);
    context.Parts();
    CallIs(context, w, held, c);
    if c.Frees? || (c.Resizes? && c.pos != 0) {
      var linked := context.small.HasLinks(c.pos - c.pos % R.RUN_SIZE);
      b := !(c.p in w.caches && c.pos in held && !linked);
    } else {
      b := match c
        case Joins(p, _) => p in w.caches
        case Writes(pos, from, to, _, _) => !(pos in held && from < to <= held[pos])
        case _ => c.p !in w.caches;
    }
  }

  /** A call that is made. */
  method Perform(context: Context, k: Kernel, w: World, c: Call, held: map<int, nat>)
    returns (w': World, held': map<int, nat>, answer: Answer)
    requires Ready(context, w) && Keeping(k) && Owned(context.w, held) && Proper(c)
    requires !NotMade(c, Now(context, w, held))
    modifies context`w, context`smallRepr, context.table, context.smallRepr, context.medium, context.medium.pool
    modifies context.medium.repr
    ensures Ready(context, w') && Owned(context.w, held')
    ensures w'.caches.Keys == if c.Joins? then w.caches.Keys + {c.p} else w.caches.Keys
    ensures fresh(context.smallRepr - old(context.smallRepr)) && fresh(context.medium.repr - old(context.medium.repr))
    ensures Does(k, context.small.clears, c, answer, old(Now(context, w, held)), Now(context, w', held'))
    ensures C.Written(context.medium.cmp) ==> (Stopping(answer) <==> old(Stops(context, w, held, c)))
    ensures (C.Written(context.medium.cmp) || c.Frees?) && Stopping(answer) ==> StoppedBy(context, w', held', c)
    ensures old(context.Exact()) ==> context.Exact() && (answer.Gave? ==> answer.r.Allocated?)
    ensures old(context.Exact()) ==> (Stopping(answer) <==> c.Frees? && old(Stops(context, w, held, c)))
  {
    hide *;
    context.Constants();
    ReadyIs(context, w);
    context.Parts();
    NowIs(context, w, held);
    ghost var s := Now(context, w, held);
    CallIs(context, w, held, c);
    StopsIs(context, w, held, c);
    w', held' := w, held;
    match c {
      case Asks(p, walk, size, mapped, pages) =>
        var r;
        w', r, held' := Allocate(context, k, w, p, walk, size, mapped, pages, held);
        answer := Gave(r);
      case Frees(p, walk, pos) =>
        w', answer, held' := MakeFree(context, k, w, c, held);
      case Resizes(p, walk, pos, size, header, mapped, pages) =>
        var r;
        w', r, held' := MakeResize(context, k, w, c, held);
        answer := Gave(r);
      case _ =>
        w', answer := PerformLight(context, k, w, c, held);
    }
    AnswerIs(answer);
    StoppedIs(context, w', held', c);
    DoesIs(k, context.small.clears, c, answer, s, Now(context, w', held'));
  }

  /** A call that changes no block. */
  method PerformLight(context: Context, k: Kernel, w: World, c: Call, held: map<int, nat>)
    returns (w': World, answer: Answer)
    requires Ready(context, w) && Keeping(k) && Owned(context.w, held) && Proper(c)
    requires (c.Joins? || c.Looks? || c.Writes?) && !NotMade(c, Now(context, w, held))
    modifies context`w, context.small`runs, context.small`state, context.medium.repr
    ensures Ready(context, w') && Owned(context.w, held) && context.medium.repr == old(context.medium.repr)
    ensures w'.caches.Keys == if c.Joins? then w.caches.Keys + {c.p} else w.caches.Keys
    ensures Does(k, context.small.clears, c, answer, old(Now(context, w, held)), Now(context, w', held))
    ensures !Stopping(answer) && !answer.Gave? && (old(context.Exact()) ==> context.Exact())
  {
    hide *;
    context.Constants();
    ReadyIs(context, w);
    NowIs(context, w, held);
    ghost var s := Now(context, w, held);
    CallIs(context, w, held, c);
    w', answer := w, CallSteps.Made;
    match c {
      case Joins(p, addrs) =>
        w' := Enter(w, context.w, p, addrs);
      case Looks(p, pos) =>
        var base;
        w', base := Address(k, w, s, p, pos);
        answer := At(base);
      case Writes(pos, from, to, word, recs) =>
        Write(context, w, pos, from, to, word, recs, held);
    }
    ReadyIs(context, w');
    NowIs(context, w', held);
    AnswerIs(answer);
    DoesIs(k, context.small.clears, c, answer, s, Now(context, w', held));
  }

  /** One call. A call of a process that takes no part, a free of a block that is not held or is in a
      run that keeps links, and a write outside such a block are passed over. */
  method Make(context: Context, k: Kernel, w: World, c: Call, held: map<int, nat>)
    returns (w': World, held': map<int, nat>, answer: Answer)
    requires Ready(context, w) && Keeping(k) && Owned(context.w, held) && Proper(c)
    modifies context`w, context`smallRepr, context.table, context.smallRepr, context.medium, context.medium.pool
    modifies context.medium.repr
    ensures Ready(context, w') && Owned(context.w, held')
    ensures fresh(context.smallRepr - old(context.smallRepr)) && fresh(context.medium.repr - old(context.medium.repr))
    ensures var s, exact := old(Now(context, w, held)), old(context.Exact());
      Leads(k, context.small.clears, exact, c, answer, s, Now(context, w', held'))
    ensures C.Written(context.medium.cmp) ==> (Stopping(answer) <==> old(Stops(context, w, held, c)))
    ensures (C.Written(context.medium.cmp) || c.Frees?) && Stopping(answer) ==> StoppedBy(context, w', held', c)
    ensures old(context.Exact()) ==>
      context.Exact() && (Stopping(answer) <==> c.Frees? && old(Stops(context, w, held, c)))
  {
    hide *;
    context.Constants();
    NowIs(context, w, held);
    ghost var s, exact := Now(context, w, held), context.Exact();
    CallIs(context, w, held, c);
    StopsIs(context, w, held, c);
    w', held', answer := w, held, PassedOver;
    AnswerIs(answer);
    var passed := Skipped(context, w, c, held);
    if !passed {
      w', held', answer := Perform(context, k, w, c, held);
    }
    NowIs(context, w', held');
    ReadyIs(context, w');
    context.Parts();
    context.ExactParts();
    if exact { context.medium.ExactMaxes(); }
    StepIs(k, context.small.clears, exact, c, answer, s, Now(context, w', held'));
  }

  lemma AnswerIs(a: Answer)
    ensures Stopping(a) <==> a.NoAddressFor? || (a.Gave? && a.r.AssertionFailed?)
  {
  }

  /** Which calls are passed over, and what a call brings. */
  lemma CallIs(context: Context, w: World, held: map<int, nat>, c: Call)
    requires Proper(c) && R.RUN_SIZE > 0
    ensures var s := Now(context, w, held);
      && (c.Joins? ==> (NotMade(c, s) <==> c.p in w.caches) && FreshAddresses(c.addrs))
      && (c.Asks? || c.Looks? ==> (NotMade(c, s) <==> c.p !in w.caches))
      && (c.Frees? || (c.Resizes? && c.pos != 0) ==> (NotMade(c, s) <==>
        !(c.p in w.caches && c.pos in held && c.pos - c.pos % R.RUN_SIZE !in context.small.linked)))
      && (c.Resizes? && c.pos == 0 ==> (NotMade(c, s) <==> c.p !in w.caches))
      && (c.Writes? ==> (NotMade(c, s) <==> !(c.pos in held && c.from < c.to <= held[c.pos])))
    ensures c.Asks? || c.Resizes? ==> ENODE !in c.pages && forall n :: 1 <= n < UNITS ==> n in c.pages
  {
  }

  /** Which calls stop. */
  lemma StopsIs(context: Context, w: World, held: map<int, nat>, c: Call)
    requires ARENA_SPAN > 0 && R.RUN_SIZE > 0
    ensures c.Asks? || (c.Resizes? && c.pos == 0) ==>
      (Stops(context, w, held, c) <==> c.p in w.caches && RefusesPages(context, c.size))
    ensures c.Frees? || (c.Resizes? && c.pos != 0) ==>
      var free := c.p in w.caches && c.pos in held && c.pos - c.pos % R.RUN_SIZE !in context.small.linked;
      && (c.Frees? ==> (Stops(context, w, held, c) <==> free && NoAddress(w, context.w.table, c.p, c.pos / ARENA_SPAN)))
      && (c.Resizes? ==> (Stops(context, w, held, c) <==> free && RefusesGrowth(context, c.pos, c.size)))
    ensures c.Joins? || c.Looks? || c.Writes? ==> !Stops(context, w, held, c)
  {
    if c.Frees? || c.Resizes? { LinkedHere(context, c.pos); }
    hide *;
    StopsParts(context, w, held, c);
  }

  lemma StopsParts(context: Context, w: World, held: map<int, nat>, c: Call)
    requires ARENA_SPAN > 0
    ensures c.Asks? || (c.Resizes? && c.pos == 0) ==>
      (Stops(context, w, held, c) <==> c.p in w.caches && RefusesPages(context, c.size))
    ensures c.Frees? || (c.Resizes? && c.pos != 0) ==>
      var linked := context.InLinked(c.pos / ARENA_SPAN, c.pos % ARENA_SPAN);
      var free := c.p in w.caches && c.pos in held && !linked;
      && (c.Frees? ==> (Stops(context, w, held, c) <==> free && NoAddress(w, context.w.table, c.p, c.pos / ARENA_SPAN)))
      && (c.Resizes? ==> (Stops(context, w, held, c) <==> free && RefusesGrowth(context, c.pos, c.size)))
    ensures c.Joins? || c.Looks? || c.Writes? ==> !Stops(context, w, held, c)
  {
    hide RefusesPages, NoAddress, RefusesGrowth, Context.InLinked;
  }

  lemma StoppedIs(context: Context, w: World, held: map<int, nat>, c: Call)
    requires ARENA_SPAN > 0
    ensures c.Asks? || c.Resizes? ==>
      (StoppedBy(context, w, held, c) <==> c.p in w.caches && RefusesPages(context, c.size))
    ensures c.Frees? ==>
      (StoppedBy(context, w, held, c) <==> c.pos in held && NoAddress(w, context.w.table, c.p, c.pos / ARENA_SPAN))
  {
  }

  /** What a call does, from what its process has done. */
  lemma DoesIs(k: Kernel, clears: bool, c: Call, a: Answer, s: State, s': State)
    requires ARENA_SPAN > 0
    ensures c.Joins? && a.Made? && WellFormed(s.world) && c.p !in s.world.caches && |c.addrs| == ARENAS ==>
      s' == s.(world := Join(s.world, c.p, c.addrs)) ==> Does(k, clears, c, a, s, s')
    ensures c.Asks? || (c.Resizes? && c.pos == 0) ==>
      a.Gave? && Asked(k, clears, c.p, c.walk, c.size, c.mapped, a.r, s, s') ==> Does(k, clears, c, a, s, s')
    ensures c.Frees? ==>
      var stopped := NoAddress(s.world, s.heap.table, c.p, c.pos / ARENA_SPAN);
      && (stopped && a == NoAddressFor && s' == s ==> Does(k, clears, c, a, s, s'))
      && (!stopped && a.Made? && Ended(k, c.p, c.walk, c.pos, s, s') ==> Does(k, clears, c, a, s, s'))
    ensures c.Resizes? && c.pos != 0 && a.Gave? ==>
      Resized(k, clears, c.p, c.walk, c.pos, c.size, c.mapped, a.r, s, s') ==> Does(k, clears, c, a, s, s')
    ensures c.Looks? && a.At? && Looked(k, c.p, c.pos, a.base, s, s') ==> Does(k, clears, c, a, s, s')
    ensures c.Writes? && a.Made? && Wrote(s, s') ==> Does(k, clears, c, a, s, s')
  {
  }

  lemma StepIs(k: Kernel, clears: bool, exact: bool, c: Call, a: Answer, s: State, s': State)
    requires if NotMade(c, s) then a == PassedOver && s' == s else Does(k, clears, c, a, s, s')
    requires s'.world.caches.Keys == (if c.Joins? then s.world.caches.Keys + {c.p} else s.world.caches.Keys)
    requires exact ==> M.MaxesTrue(s'.heap.medium, s'.maxes) && (a.Gave? ==> a.r.Allocated?)
    ensures Leads(k, clears, exact, c, a, s, s')
  {
  }

  lemma LinkedHere(context: Context, pos: nat)
    requires ARENA_SPAN > 0 && R.RUN_SIZE > 0
    ensures context.InLinked(pos / ARENA_SPAN, pos % ARENA_SPAN) <==> pos - pos % R.RUN_SIZE in context.small.linked
  {
    IndexOffset(pos);
  }

  lemma StartJoint(id: int, h: Whole)
    requires id > 0 && WholeHolds(h) && |h.table| == ARENAS && h.table[0].kind == ContextArena
    requires forall i :: 0 < i < ARENAS ==> h.table[i].kind == EmptyArena
    ensures Joint(Start(id), h)
  {
    StartHolds(id);
  }

  ghost predicate BySize(cmp: (C.MediumKey, C.MediumKey) -> int) {
    forall a, b :: cmp(a, b) == C.SizeIndexCompare(a, b)
  }

  lemma ExactBySize(context: Context)
    ensures context.Exact() ==> BySize(context.medium.cmp)
  {
  }

  lemma BySizeIs(cmp: (C.MediumKey, C.MediumKey) -> int)
    ensures BySize(cmp) <==> forall a, b :: cmp(a, b) == C.SizeIndexCompare(a, b)
  {
  }

  lemma SoundNow(context: Context, w: World, held: map<int, nat>)
    requires Ready(context, w) && Owned(context.w, held)
    ensures Sound(Now(context, w, held))
  {
    context.Parts();
    context.medium.Components();
    hide Joint, Owned, Everywhere, S.OneSpare, LiveAt, WholeHolds, M.Mediums.Valid;
    JointEverywhere(w, context.w);
  }

  lemma TraceStart(kernel: nat -> Kernel, clears: bool, exact: bool, calls: seq<Call>, s: State, id: int)
    requires Sound(s) && s.world == Start(id) && s.held == map[] && s.linked == {} && s.world.caches == map[]
    requires forall pos, len :: !LiveAt(s.heap, pos, len)
    ensures Trace(kernel, clears, exact, calls, [], [s]) && Begins(s, id)
  {
    hide Sound, LiveAt;
  }

  lemma TraceMore(kernel: nat -> Kernel, clears: bool, exact: bool, calls: seq<Call>, answers: seq<Answer>,
      states: seq<State>, a: Answer, s: State)
    requires Trace(kernel, clears, exact, calls, answers, states) && |answers| < |calls| && Sound(s)
    requires |states| == |answers| + 1
    requires Leads(kernel(|answers|), clears, exact, calls[|answers|], a, states[|answers|], s)
    ensures Trace(kernel, clears, exact, calls, answers + [a], states + [s]) && (states + [s])[0] == states[0]
  {
    hide Sound, Leads;
  }

  /** Any calls of any processes, one after the other, from a heap that has just been made, until one
      stops its process. `states` are the states before and after each call: every one of them is sound,
      and each call leads from one to the next as its answer says. The blocks that are held in the end and
      the processes that take part are those the calls and answers say. A run is shorter than its calls
      only if the last answer is that the process has stopped, and it says what still stops it. */
  method Run(id: int, clears: bool, cmp: (C.MediumKey, C.MediumKey) -> int, kernel: nat -> Kernel, calls: seq<Call>)
    returns (context: Context, w: World, held: map<int, nat>, answers: seq<Answer>, ghost states: seq<State>)
    requires id > 0 && (forall i :: Keeping(kernel(i))) && forall c :: c in calls ==> Proper(c)
    ensures fresh(context) && context.small.clears == clears && context.medium.cmp == cmp
    ensures Ready(context, w) && (BySize(cmp) ==> context.Exact())
    ensures Trace(kernel, clears, BySize(cmp), calls, answers, states) && Begins(states[0], id)
    ensures states[|answers|] == Now(context, w, held)
    ensures Ledger(held, w.caches.Keys) == Replay(calls, answers)
    ensures forall i :: 0 <= i < |answers| && Stopping(answers[i]) ==> i == |answers| - 1
    ensures |answers| < |calls| ==> answers != [] && Stopping(answers[|answers| - 1])
    ensures forall i :: 0 <= i < |answers| && Stopping(answers[i]) ==>
      && (BySize(cmp) ==> calls[i].Frees?)
      && (calls[i].Frees? || C.Written(cmp) ==> StoppedBy(context, w, held, calls[i]))
  {
    hide *;
    BySizeIs(cmp);
    context := InitSharedContext(clears, cmp);
    context.Parts();
    w, held, answers := Start(id), map[], [];
    StartJoint(id, context.w);
    NothingOwned(context.w);
    ReadyIs(context, w);
    SoundNow(context, w, held);
    NowIs(context, w, held);
    NobodyYet(id);
    states := [Now(context, w, held)];
    TraceStart(kernel, clears, BySize(cmp), calls, states[0], id);
    var stopped := false;
    while |answers| < |calls| && !stopped
      invariant context.small.clears == clears && context.medium.cmp == cmp
      invariant fresh(context) && fresh(context.table) && fresh(context.smallRepr)
      invariant fresh(context.medium) && fresh(context.medium.pool) && fresh(context.medium.repr)
      invariant Ready(context, w) && Owned(context.w, held) && (BySize(cmp) ==> context.Exact())
      invariant |answers| <= |calls| && |states| == |answers| + 1 && states[|answers|] == Now(context, w, held)
      invariant Trace(kernel, clears, BySize(cmp), calls, answers, states) && Begins(states[0], id)
      invariant forall i :: 0 <= i < |answers| && Stopping(answers[i]) ==> i == |answers| - 1 && stopped
      invariant stopped ==> answers != [] && Stopping(answers[|answers| - 1])
      invariant stopped ==>
        var c := calls[|answers| - 1];
        && (BySize(cmp) ==> c.Frees?) && (c.Frees? || C.Written(cmp) ==> StoppedBy(context, w, held, c))
      decreases |calls| - |answers|
    {
      var n, answer := |answers|, PassedOver;
      ExactBySize(context);
      w, held, answer := Make(context, kernel(n), w, calls[n], held);
      SoundNow(context, w, held);
      TraceMore(kernel, clears, BySize(cmp), calls, answers, states, answer, Now(context, w, held));
      answers, states := answers + [answer], states + [Now(context, w, held)];
      AnswerIs(answer);
      stopped := Stopping(answer);
    }
    TraceLedger(kernel, clears, BySize(cmp), calls, answers, states, id);
    NowIs(context, w, held);
    LedgerIs(states[|answers|]);
  }

  lemma NobodyYet(id: int)
    ensures Start(id).caches == map[]
  {
  }

  lemma LedgerIs(s: State)
    ensures LedgerOf(s) == Ledger(s.held, s.world.caches.Keys)
  {
  }
}
