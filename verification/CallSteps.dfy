/** What each call of src/shm_malloc.c does, as a step from one state to the next: the heap, the mappings
    of all processes, and the record of the blocks that are held. */
module CallSteps {
  import opened Basics
  import opened RedBlackMemory
  import opened MappingCache
  import opened ArenaTable
  import opened WholeHeap
  import opened WholeFree
  import opened HeapMappings
  import opened KernelSteps
  import opened Context
  import opened SharedMalloc
  import R = SmallRun
  import S = SmallState
  import C = MediumChunk
  import M = MediumPool

  /** The heap, the cached maxima of its chunks of pages, its full runs that keep links, the mappings, and
      the blocks that are held with the bytes asked for. */
  datatype State = State(heap: Whole, maxes: map<int, int>, linked: set<int>, world: World, held: map<int, nat>)

  /** A call, and the answer of the kernel to a request for memory. */
  datatype Call =
    | Joins(p: int, addrs: seq<int>)
    | Asks(p: int, walk: seq<nat>, size: nat, mapped: bool, pages: Memory<C.MediumKey>)
    | Frees(p: int, walk: seq<nat>, pos: nat)
    | Resizes(p: int, walk: seq<nat>, pos: nat, size: nat, header: nat, mapped: bool, pages: Memory<C.MediumKey>)
    | Looks(p: int, pos: nat)
    | Writes(pos: nat, from: nat, to: nat, word: int, recs: int -> NodeRec<C.MediumKey>)

  /** The kernel maps a new process's arenas at different places, and memory is memory. */
  ghost predicate Proper(c: Call) {
    match c
    case Joins(_, addrs) => FreshAddresses(addrs)
    case Asks(_, _, _, _, pages) => ENODE !in pages && forall n :: 1 <= n < UNITS ==> n in pages
    case Resizes(_, _, _, _, _, _, pages) => ENODE !in pages && forall n :: 1 <= n < UNITS ==> n in pages
    case _ => true
  }

  /** What a call comes back with: it was not made, it was, the position or failed assertion of an
      allocation, the base address of an arena, or the failed assertion of a free. */
  datatype Answer = PassedOver | Made | Gave(r: C.MallocResult) | At(base: int) | NoAddressFor

  /** The process has stopped. */
  predicate Stopping(a: Answer) {
    a.NoAddressFor? || (a.Gave? && a.r.AssertionFailed?)
  }

  /** There is a new block. */
  predicate IsNew(r: C.MallocResult) {
    r.Allocated? && r.pos != 0
  }

  // ----- the steps -----

  /** The process takes part and the block is held, and not in a run that keeps links. */
  ghost predicate Freeable(s: State, p: int, pos: nat) {
    p in s.world.caches && pos in s.held && pos - pos % R.RUN_SIZE !in s.linked
  }

  /** Calls that are passed over. */
  ghost predicate NotMade(c: Call, s: State) {
    match c
    case Joins(p, _) => p in s.world.caches
    case Asks(p, _, _, _, _) => p !in s.world.caches
    case Frees(p, _, pos) => !Freeable(s, p, pos)
    case Resizes(p, _, pos, _, _, _, _) => if pos == 0 then p !in s.world.caches else !Freeable(s, p, pos)
    case Looks(p, _) => p !in s.world.caches
    case Writes(pos, from, to, _, _) => !(pos in s.held && from < to <= s.held[pos])
  }

  /** shm_malloc */
  ghost predicate Asked(k: Kernel, clears: bool, p: int, walk: seq<nat>, size: nat, mapped: bool, r: C.MallocResult,
      s: State, s': State)
  {
    if size == 0 then r == C.Allocated(0) && s' == s
    else
      && TablesFor(s.heap, s.maxes, s'.heap.table, size, mapped, r)
      && (exists len :: Allocates(s.heap, s'.heap, size, r, len))
      && LinksStep(s.heap.small, s.linked, s'.linked, size, r, clears)
      && s'.held == (if IsNew(r) then s.held[r.pos := size] else s.held) && (IsNew(r) ==> r.pos !in s.held)
      && Walked(k, s.world, p, walk) && 1 <= |s.heap.table| == |s'.heap.table|
      && s'.world == Grow(k, LookAll(k, s.world, p, walk), p, s.heap.table, s'.heap.table)
  }

  /** The process can look at the arenas of `walk`, and still takes part then. */
  ghost predicate Walked(k: Kernel, w: World, p: int, walk: seq<nat>) {
    && WellFormed(w) && p in w.caches
    && var w1 := LookAll(k, w, p, walk); WellFormed(w1) && p in w1.caches
  }

  /** shm_free of a block that is held, where the process has an address if that is needed. */
  ghost predicate Ended(k: Kernel, p: int, walk: seq<nat>, pos: nat, s: State, s': State) {
    && (exists len :: OneMore(s'.heap, s.heap, pos, len)) && s'.held == s.held - {pos} && s'.linked == s.linked
    && Shrinks(s.heap, s'.heap, pos / ARENA_SPAN, pos % ARENA_SPAN) && Walked(k, s.world, p, walk)
    && var w1 := if LargeRow(s.heap.table, pos / ARENA_SPAN) then s.world else LookAll(k, s.world, p, walk);
      var r := Shrink(k, w1, p, s'.heap.table, pos / ARENA_SPAN);
      r.Done? && s'.world == r.w
  }

  /** The size query knows the length of a block here. */
  ghost predicate LengthKnown(h: Whole, index: nat, offset: nat) {
    && index < |h.table|
    && var a := h.table[index];
      a.kind == LargeArena || (offset < CHUNK_SIZE && 0 < |a.chunks| && a.chunks[0] in h.small.pages)
  }

  /** The block is shorter than `size`, and the size query says so. */
  ghost predicate TooShort(h: Whole, pos: nat, size: nat) {
    (exists l :: LiveAt(h, pos, l) && size > l) && LengthKnown(h, pos / ARENA_SPAN, pos % ARENA_SPAN)
  }

  /** A move goes by way of a heap that has both blocks, and `t` is its table. */
  ghost predicate AllocatesThenFrees(h: Whole, h': Whole, t: seq<Arena>, pos: nat, size: nat, r: C.MallocResult) {
    exists mid, len :: Allocates(h, mid, size, r, len) && mid.table == t
      && Released(mid, h', pos / ARENA_SPAN, pos % ARENA_SPAN, r)
  }

  /** shm_realloc of a block that is held. */
  ghost predicate Resized(k: Kernel, clears: bool, p: int, walk: seq<nat>, pos: nat, size: nat, mapped: bool,
      r: C.MallocResult, s: State, s': State)
  {
    && Walked(k, s.world, p, walk)
    && if !TooShort(s.heap, pos, size) then r == C.Allocated(pos) && s' == s.(world := LookAll(k, s.world, p, walk))
      else
        && size > 0 && |s.heap.table| == ARENAS && pos / ARENA_SPAN < ARENAS
        && var t := TableFor(s.heap, s.maxes, size, mapped);
          && TablesFor(s.heap, s.maxes, t, size, mapped, r) && |t| == ARENAS
          && AllocatesThenFrees(s.heap, s'.heap, t, pos, size, r)
          && (exists len :: Regrown(s.heap, s'.heap, pos, size, r, len))
          && LinksStep(s.heap.small, s.linked, s'.linked, size, r, clears)
          && s'.held == (if IsNew(r) then (s.held - {pos})[r.pos := size] else s.held)
          && (IsNew(r) ==> r.pos !in s.held && 0 <= r.pos / ARENA_SPAN < ARENAS)
          && s'.world == ResizedWorld(k, s.world, p, walk, s.heap.table, t, s'.heap.table, pos, r)
  }

  ghost function ResizedWorld(k: Kernel, w: World, p: int, walk: seq<nat>, t: seq<Arena>, between: seq<Arena>,
      t': seq<Arena>, pos: nat, r: C.MallocResult): World
    requires Walked(k, w, p, walk) && 1 <= |t| == |between| && pos / ARENA_SPAN < ARENAS
    requires IsNew(r) ==> 0 <= r.pos / ARENA_SPAN < ARENAS
  {
    var w1 := Grow(k, LookAll(k, w, p, walk), p, t, between);
    if !IsNew(r) || !WellFormed(w1) || p !in w1.caches then w1
    else MoveWorld(k, w1, p, t', pos / ARENA_SPAN, r.pos / ARENA_SPAN)
  }

  /** shm_get_addr: a base address exactly for the arenas in the table. */
  ghost predicate Looked(k: Kernel, p: int, pos: nat, base: int, s: State, s': State) {
    var i := pos / ARENA_SPAN;
    if i >= ARENAS then base == NOWHERE && s' == s
    else
      && WellFormed(s.world) && p in s.world.caches && s' == s.(world := s'.world)
      && Resolve(s.world, p, i, k.where(GivenUp(s.world, p, i), p)) == Done(s'.world, base)
      && (base != NOWHERE <==> ArenaValid(s.world, i))
  }

  /** A write of a user. */
  ghost predicate Wrote(s: State, s': State) {
    && SameLive(s.heap, s'.heap) && s' == s.(heap := s'.heap)
    && s'.heap.table == s.heap.table && s'.heap.medium == s.heap.medium
  }

  /** What a call does that is made. */
  ghost predicate Does(k: Kernel, clears: bool, c: Call, a: Answer, s: State, s': State) {
    match c
    case Joins(p, addrs) =>
      a == Made && WellFormed(s.world) && p !in s.world.caches && |addrs| == ARENAS
      && s' == s.(world := Join(s.world, p, addrs))
    case Asks(p, walk, size, mapped, _) => a.Gave? && Asked(k, clears, p, walk, size, mapped, a.r, s, s')
    case Frees(p, walk, pos) =>
      if NoAddress(s.world, s.heap.table, p, pos / ARENA_SPAN) then a == NoAddressFor && s' == s
      else a == Made && Ended(k, p, walk, pos, s, s')
    case Resizes(p, walk, pos, size, _, mapped, _) =>
      a.Gave? && if pos == 0 then Asked(k, clears, p, walk, size, mapped, a.r, s, s')
        else Resized(k, clears, p, walk, pos, size, mapped, a.r, s, s')
    case Looks(p, pos) => a.At? && Looked(k, p, pos, a.base, s, s')
    case Writes(_, _, _, _, _) => a == Made && Wrote(s, s')
  }

  /** One call. `exact` says that the trees of free pages are ordered by size. */
  ghost predicate Leads(k: Kernel, clears: bool, exact: bool, c: Call, a: Answer, s: State, s': State) {
    && (if NotMade(c, s) then a == PassedOver && s' == s else Does(k, clears, c, a, s, s'))
    && s'.world.caches.Keys == (if c.Joins? then s.world.caches.Keys + {c.p} else s.world.caches.Keys)
    && (exact ==> M.MaxesTrue(s'.heap.medium, s'.maxes) && (a.Gave? ==> a.r.Allocated?))
  }

  // ----- the record of the blocks -----

  /** `held` says which blocks are held, and for how many bytes each was asked. */
  ghost predicate Owned(h: Whole, held: map<int, nat>) {
    forall pos :: OwnedAt(h, held, pos)
  }

  ghost predicate OwnedAt(h: Whole, held: map<int, nat>, pos: int) {
    if pos in held then exists len :: LiveAt(h, pos, len) && 0 < held[pos] <= len
    else forall len :: !LiveAt(h, pos, len)
  }

  lemma OwnedSame(h: Whole, h': Whole, held: map<int, nat>)
    requires Owned(h, held) && SameLive(h, h')
    ensures Owned(h', held)
  {
    hide LiveAt;
    forall pos ensures OwnedAt(h', held, pos) { assert OwnedAt(h, held, pos); }
  }

  lemma OwnedMore(h: Whole, h': Whole, held: map<int, nat>, pos: int, len: int, size: nat)
    requires Owned(h, held) && OneMore(h, h', pos, len) && 0 < size <= len
    ensures pos !in held && Owned(h', held[pos := size])
  {
    hide LiveAt;
    assert OwnedAt(h, held, pos) && LiveAt(h', pos, len);
    var now := held[pos := size];
    forall q ensures OwnedAt(h', now, q) { assert OwnedAt(h, held, q); }
  }

  lemma OwnedLess(h: Whole, h': Whole, held: map<int, nat>, pos: int, len: int)
    requires Owned(h, held) && OneMore(h', h, pos, len)
    ensures Owned(h', held - {pos})
  {
    hide LiveAt;
    var now := held - {pos};
    forall q ensures OwnedAt(h', now, q) { assert OwnedAt(h, held, q); }
  }

  lemma OwnedMoved(h: Whole, h': Whole, held: map<int, nat>, pos: int, to: int, len: int, size: nat)
    requires Owned(h, held) && Moved(h, h', pos, to, len) && 0 < size <= len
    ensures to !in held && Owned(h', (held - {pos})[to := size])
  {
    hide LiveAt;
    assert OwnedAt(h, held, to) && LiveAt(h', to, len);
    var now := (held - {pos})[to := size];
    forall q ensures OwnedAt(h', now, q) { assert OwnedAt(h, held, q); }
  }

  /** A block that is held has its length. */
  lemma OwnedLen(h: Whole, held: map<int, nat>, pos: int) returns (len: int)
    requires Owned(h, held) && pos in held
    ensures LiveAt(h, pos, len) && 0 < held[pos] <= len
  {
    hide LiveAt;
    assert OwnedAt(h, held, pos);
    len :| LiveAt(h, pos, len) && 0 < held[pos] <= len;
  }

  /** What an allocation does to the record of blocks. */
  lemma OwnedAfter(h: Whole, h': Whole, held: map<int, nat>, size: nat, r: C.MallocResult, len: int)
    requires Owned(h, held) && Allocates(h, h', size, r, len) && size > 0
    ensures if r.Allocated? && r.pos != 0 then r.pos !in held && Owned(h', held[r.pos := size]) else Owned(h', held)
  {
    hide LiveAt, Owned, SameLive, OneMore;
    if r.Allocated? && r.pos != 0 { OwnedMore(h, h', held, r.pos, len, size); }
    if r.AssertionFailed? { OwnedSame(h, h', held); }
  }

  // ----- what holds in every state of a run -----

  /** Every process that takes part can reach every block that is held, in the segment its arena has. */
  ghost predicate Everywhere(w: World, h: Whole) {
    forall p, index: nat, offset: nat, len, addr ::
      offset < ARENA_SPAN && LiveAt(h, Pos(index, offset), len) && FreeFor(w, p, index, addr) ==>
        Reached(w, p, index, addr)
  }

  ghost predicate Reached(w: World, p: int, index: nat, addr: int) {
    && WellFormed(w) && p in w.caches && index < ARENAS
    && var r := Resolve(w, p, index, addr);
      && r.Done? && r.result != NOWHERE && p in r.w.attached && r.result in r.w.attached[p]
      && r.w.attached[p][r.result] == w.table[index].segment
  }

  lemma JointEverywhere(w: World, h: Whole)
    requires Joint(w, h)
    ensures Everywhere(w, h)
  {
    hide LiveAt, Inv, WholeHolds, Joint, Resolve;
    forall p, index: nat, offset: nat, len, addr
      | offset < ARENA_SPAN && LiveAt(h, Pos(index, offset), len) && FreeFor(w, p, index, addr)
      ensures Reached(w, p, index, addr)
    {
      HeldReached(w, h, p, index, offset, len, addr);
      ReachedAttached(Resolve(w, p, index, addr).w, h, p);
    }
  }

  lemma ReachedAttached(w: World, h: Whole, p: int)
    requires Joint(w, h) && p in w.caches
    ensures p in w.attached
  {
  }

  lemma NothingOwned(h: Whole)
    requires forall pos, len :: !LiveAt(h, pos, len)
    ensures Owned(h, map[])
  {
    hide LiveAt;
  }

  ghost predicate Sound(s: State) {
    && Joint(s.world, s.heap) && S.OneSpare(s.heap.small) && Owned(s.heap, s.held) && Everywhere(s.world, s.heap)
    && s.maxes.Keys == s.heap.medium.Keys
  }

  // ----- runs -----

  /** The calls, their answers and the states between them fit together, from the first state on. */
  ghost predicate Trace(kernel: nat -> Kernel, clears: bool, exact: bool, calls: seq<Call>, answers: seq<Answer>,
      states: seq<State>)
  {
    && |answers| <= |calls| && |states| == |answers| + 1
    && (forall i :: 0 <= i < |answers| ==>
      Leads(kernel(i), clears, exact, calls[i], answers[i], states[i], states[i + 1]))
    && forall i :: 0 <= i < |states| ==> Sound(states[i])
  }

  /** Nothing but the segment of the context. */
  ghost predicate Begins(s: State, id: int) {
    && s.world == Start(id) && s.held == map[] && s.linked == {} && forall pos, len :: !LiveAt(s.heap, pos, len)
  }

  /** What the calls and their answers alone say about the blocks that are held and who takes part. */
  datatype Ledger = Ledger(held: map<int, nat>, processes: set<int>)

  function Entered(l: Ledger, c: Call, a: Answer): Ledger {
    match c
    case Joins(p, _) => l.(processes := l.processes + {p})
    case Asks(_, _, size, _, _) => if a.Gave? && IsNew(a.r) then l.(held := l.held[a.r.pos := size]) else l
    case Frees(_, _, pos) => if a.Made? then l.(held := l.held - {pos}) else l
    case Resizes(_, _, pos, size, _, _, _) =>
      if !a.Gave? || !IsNew(a.r) || a.r.pos == pos then l
      else if pos == 0 then l.(held := l.held[a.r.pos := size])
      else l.(held := (l.held - {pos})[a.r.pos := size])
    case Looks(_, _) => l
    case Writes(_, _, _, _, _) => l
  }

  function Replay(calls: seq<Call>, answers: seq<Answer>): Ledger
    requires |answers| <= |calls|
    decreases |answers|
  {
    if answers == [] then Ledger(map[], {})
    else
      var n := |answers| - 1;
      Entered(Replay(calls, answers[..n]), calls[n], answers[n])
  }

  ghost function LedgerOf(s: State): Ledger {
    Ledger(s.held, s.world.caches.Keys)
  }

  /** A step changes the record as the call and its answer say. */
  lemma StepLedger(k: Kernel, clears: bool, exact: bool, c: Call, a: Answer, s: State, s': State)
    requires Leads(k, clears, exact, c, a, s, s')
    ensures LedgerOf(s') == Entered(LedgerOf(s), c, a)
  {
  }

  /** Pools that clear links leave none. */
  lemma StepLinks(k: Kernel, exact: bool, c: Call, a: Answer, s: State, s': State)
    requires Leads(k, true, exact, c, a, s, s') && s.linked == {}
    ensures s'.linked == {}
  {
  }

  /** With pools that clear links a free or a move is passed over only if the block is not held or the
      process takes no part. */
  lemma {:induction false} ClearingRuns(kernel: nat -> Kernel, exact: bool, calls: seq<Call>, answers: seq<Answer>,
      states: seq<State>, id: int, n: nat)
    requires Trace(kernel, true, exact, calls, answers, states) && Begins(states[0], id) && n < |states|
    ensures states[n].linked == {}
    ensures n < |answers| && (calls[n].Frees? || (calls[n].Resizes? && calls[n].pos != 0)) ==>
      (answers[n].PassedOver? <==> calls[n].p !in states[n].world.caches || calls[n].pos !in states[n].held)
  {
    hide Leads, Sound;
    if n > 0 {
      ClearingRuns(kernel, exact, calls, answers, states, id, n - 1);
      StepLinks(kernel(n - 1), exact, calls[n - 1], answers[n - 1], states[n - 1], states[n]);
    }
    if n < |answers| { StepPassed(kernel(n), exact, calls[n], answers[n], states[n], states[n + 1]); }
  }

  lemma StepPassed(k: Kernel, exact: bool, c: Call, a: Answer, s: State, s': State)
    requires Leads(k, true, exact, c, a, s, s') && s.linked == {}
    ensures c.Frees? || (c.Resizes? && c.pos != 0) ==>
      (a.PassedOver? <==> c.p !in s.world.caches || c.pos !in s.held)
  {
  }

  lemma NothingEntered(s: State, id: int)
    requires Begins(s, id)
    ensures LedgerOf(s) == Ledger(map[], {})
  {
  }

  /** The record after a run is the one its calls and answers say. */
  lemma {:induction false} TraceLedger(kernel: nat -> Kernel, clears: bool, exact: bool, calls: seq<Call>,
      answers: seq<Answer>, states: seq<State>, id: int)
    requires Trace(kernel, clears, exact, calls, answers, states) && Begins(states[0], id)
    ensures LedgerOf(states[|answers|]) == Replay(calls, answers)
    decreases |answers|
  {
    hide Leads, Sound, Entered, LedgerOf;
    if answers == [] {
      NothingEntered(states[0], id);
    } else {
      var n := |answers| - 1;
      TraceLedger(kernel, clears, exact, calls, answers[..n], states[..n + 1], id);
      StepLedger(kernel(n), clears, exact, calls[n], answers[n], states[n], states[n + 1]);
    }
  }
}
