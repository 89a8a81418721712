/** Which address a process uses for an arena. The table of arenas is shared; every process keeps
    for each index the address it mapped and the segment id it mapped then, and tells by comparing
    that id with the table whether the mapping is still the right one. Steps run under one lock. */
module MappingCache {

  /** SHM_ARENA_MAX */
  const ARENAS: int := 128
  /** The null address. */
  const NOWHERE: int := 0

  datatype ArenaKind = EmptyArena | ContextArena | ChunkArena | LargeArena

  /** One row of the shared table. `segment` and `owner` are bookkeeping of the model: which of all
      segments ever made the row stands for, and the process that made it. */
  datatype Slot = Slot(kind: ArenaKind, shmid: int, segment: int, owner: int)

  const NO_ARENA := Slot(EmptyArena, 0, 0, 0)

  /** struct shm_arena_addr */
  datatype Entry = Entry(addr: int, shmid: int)

  const NO_ENTRY := Entry(NOWHERE, 0)

  /** The shared table, the caches of all processes, and the kernel: the ids in use, each with its
      segment, and what every process has mapped where. A segment is a number that is never used
      twice; an id can be. */
  datatype World = World(table: seq<Slot>, caches: map<int, seq<Entry>>,
                         kernel: map<int, int>, attached: map<int, map<int, int>>, made: int)

  // ----- the kernel -----

  /** shmat returns an address that is free in the process. */
  predicate FreeAddress(w: World, p: int, addr: int) {
    p in w.attached && addr != NOWHERE && addr !in w.attached[p]
  }

  /** shmget gives a new segment an id no living segment has. */
  predicate FreeId(w: World, id: int) {
    id > 0 && id !in w.kernel
  }

  function Attach(w: World, p: int, id: int, addr: int): (World, int)
    requires p in w.attached
  {
    if id in w.kernel then
      (w.(attached := w.attached[p := w.attached[p][addr := w.kernel[id]]]), addr)
    else (w, NOWHERE)
  }

  predicate Mapped(attached: map<int, map<int, int>>, g: int) {
    exists p | p in attached :: exists a | a in attached[p] :: attached[p][a] == g
  }

  /** Every segment but the context's has been marked for removal: the kernel drops it with its id
      once nobody maps it. */
  function Reap(w: World): World {
    w.(kernel := map id | id in w.kernel && (w.kernel[id] == 0 || Mapped(w.attached, w.kernel[id])) :: w.kernel[id])
  }

  /** shmdt; an address that is not mapped is an error without effect. */
  function Detach(w: World, p: int, addr: int): World
    requires p in w.attached
  {
    Reap(w.(attached := w.attached[p := w.attached[p] - {addr}]))
  }

  // ----- the steps -----

  predicate WellFormed(w: World) {
    && |w.table| == ARENAS && w.caches.Keys == w.attached.Keys
    && forall p | p in w.caches :: |w.caches[p]| == ARENAS
  }

  /** is_arena_valid */
  predicate ArenaValid(w: World, index: nat) {
    index < |w.table| && w.table[index].kind != EmptyArena
  }

  function SetEntry(w: World, p: int, index: nat, e: Entry): World
    requires p in w.caches && index < |w.caches[p]|
  {
    w.(caches := w.caches[p := w.caches[p][index := e]])
  }

  datatype Outcome = Aborted | Done(w: World, result: int)

  /** The first half of get_or_update_arena_addr: a mapping that is not the right one any more is
      given up. */
  function GivenUp(w: World, p: int, index: nat): World
    requires WellFormed(w) && p in w.caches && index < ARENAS
  {
    var e := w.caches[p][index];
    if e.shmid != w.table[index].shmid && e.shmid != 0 then SetEntry(Detach(w, p, e.addr), p, index, NO_ENTRY) else w
  }

  /** The kernel may map at `addr` when the step asks for it: after the stale mapping has been given
      up, so its own address is free again. */
  predicate FreeFor(w: World, p: int, index: nat, addr: int) {
    WellFormed(w) && p in w.caches && (index < ARENAS ==> FreeAddress(GivenUp(w, p, index), p, addr))
  }

  /** get_or_update_arena_addr. `addr` is where the kernel maps, if it has to. */
  function Resolve(w: World, p: int, index: nat, addr: int): Outcome
    requires WellFormed(w) && p in w.caches && index < ARENAS
  {
    var e, slot := w.caches[p][index], w.table[index];
    if e.shmid == slot.shmid then Done(w, e.addr)
    else if e.shmid != 0 && e.addr == NOWHERE then Aborted
    else
      var w1 := GivenUp(w, p, index);
      if !ArenaValid(w, index) then Done(w1, w1.caches[p][index].addr)
      else if slot.kind == ContextArena then Aborted
      else
        var (w2, base) := Attach(w1, p, slot.shmid, addr);
        Done(SetEntry(w2, p, index, Entry(base, slot.shmid)), base)
  }

  /** The first free row after the context's. */
  function FirstEmpty(table: seq<Slot>, i: nat): (index: nat)
    requires 1 <= i <= |table|
    ensures i <= index <= |table| && (index < |table| ==> table[index].kind == EmptyArena)
    ensures forall j :: i <= j < index ==> table[j].kind != EmptyArena
    decreases |table| - i
  {
    if i == |table| || table[i].kind == EmptyArena then i else FirstEmpty(table, i + 1)
  }

  /** new_arena, in process `p`: the kernel gives id `id` and maps at `addr`. The index, or 0 if the
      table is full. The cache entry is overwritten, whatever it was. */
  function NewArena(w: World, p: int, kind: ArenaKind, id: int, addr: int): Outcome
    requires WellFormed(w) && p in w.caches
  {
    var index := FirstEmpty(w.table, 1);
    if index == ARENAS then Done(w, 0)
    else
      var g := w.made;
      var w1 := w.(kernel := w.kernel[id := g], made := g + 1,
                   attached := w.attached[p := w.attached[p][addr := g]],
                   table := w.table[index := Slot(kind, id, g, p)]);
      Done(SetEntry(w1, p, index, Entry(addr, id)), index)
  }

  /** delete_arena */
  function DeleteArena(w: World, p: int, index: nat): Outcome
    requires WellFormed(w) && p in w.caches && index < ARENAS
  {
    var addr := w.caches[p][index].addr;
    if addr == NOWHERE then Aborted
    else
      var w1 := SetEntry(w.(table := w.table[index := NO_ARENA]), p, index, NO_ENTRY);
      Done(Detach(w1, p, addr), 0)
  }

  /** free_arena, as far as arenas go: `last` tells whether a chunk arena loses its last chunk. */
  function FreeArena(w: World, p: int, index: nat, last: bool, addr: int): Outcome
    requires WellFormed(w) && p in w.caches
  {
    if !ArenaValid(w, index) then Done(w, 0)
    else if w.table[index].kind == LargeArena then DeleteArena(w, p, index)
    else
      match Resolve(w, p, index, addr)
      case Aborted => Aborted
      case Done(w1, _) =>
        if last && w.table[index].kind == ChunkArena && WellFormed(w1) && p in w1.caches
        then DeleteArena(w1, p, index) else Done(w1, 0)
  }

  /** The loop of shm_init from index i on, in process `p`. */
  function MapAll(w: World, p: int, i: nat, addrs: seq<int>): World
    requires WellFormed(w) && p in w.caches && i <= ARENAS == |addrs|
    decreases ARENAS - i
  {
    if i == ARENAS then w
    else MapAll(MapOne(w, p, i, addrs[i]), p, i + 1, addrs)
  }

  function MapOne(w: World, p: int, i: nat, addr: int): (w': World)
    requires WellFormed(w) && p in w.caches && i < ARENAS
    ensures WellFormed(w') && p in w'.caches
  {
    if i == 0 || ArenaValid(w, i) then
      var (w1, base) := Attach(w, p, w.table[i].shmid, addr);
      SetEntry(w1, p, i, Entry(base, w.table[i].shmid))
    else w
  }

  function Newcomer(w: World, p: int): World {
    w.(caches := w.caches[p := seq(ARENAS, i => NO_ENTRY)], attached := w.attached[p := map[]])
  }

  /** shm_init in a new process. */
  function Join(w: World, p: int, addrs: seq<int>): World
    requires WellFormed(w) && p !in w.caches && |addrs| == ARENAS
  {
    MapAll(Newcomer(w, p), p, 0, addrs)
  }

  // ----- what every step keeps -----

  /** The row names a living segment, and its maker still has it mapped. */
  ghost predicate SlotHolds(w: World, i: nat)
    requires WellFormed(w) && i < ARENAS
  {
    var s := w.table[i];
    if i == 0 then s.kind == ContextArena && s.shmid in w.kernel && w.kernel[s.shmid] == s.segment == 0
    else
      && s.kind != ContextArena && (s.kind == EmptyArena <==> s.shmid == 0)
      && (s.kind != EmptyArena ==>
        && s.segment > 0 && s.shmid in w.kernel && w.kernel[s.shmid] == s.segment
        && s.owner in w.caches && w.caches[s.owner][i].shmid == s.shmid)
  }

  /** A cache entry leads to the segment that has the remembered id: that one is mapped here, so it
      lives and its id cannot be given away. */
  ghost predicate EntryHolds(w: World, p: int, i: nat)
    requires WellFormed(w) && p in w.caches && i < ARENAS
  {
    var e := w.caches[p][i];
    && (e.shmid == 0 <==> e.addr == NOWHERE)
    && (e.shmid != 0 ==> e.addr in w.attached[p] && e.shmid in w.kernel && w.attached[p][e.addr] == w.kernel[e.shmid])
    && (forall j :: 0 <= j < ARENAS && j != i && e.addr != NOWHERE ==> w.caches[p][j].addr != e.addr)
  }

  ghost predicate KernelHolds(w: World) {
    && w.made > 0
    && (forall id :: id in w.kernel ==> id > 0 && w.kernel[id] < w.made)
    && (forall a, b :: a in w.kernel && b in w.kernel && w.kernel[a] == w.kernel[b] ==> a == b)
    && (forall p, a :: p in w.attached && a in w.attached[p] ==> a != NOWHERE && w.attached[p][a] < w.made)
  }

  /** Every living segment but the context's is mapped by some process. */
  ghost predicate Alive(w: World) {
    forall id :: id in w.kernel ==> w.kernel[id] == 0 || Mapped(w.attached, w.kernel[id])
  }

  ghost predicate Core(w: World) {
    && WellFormed(w) && KernelHolds(w) && Alive(w)
    && (forall i :: 0 <= i < ARENAS ==> SlotHolds(w, i))
    && (forall p, i :: p in w.caches && 0 <= i < ARENAS ==> EntryHolds(w, p, i))
  }

  ghost predicate Inv(w: World) {
    Core(w) && forall p :: p in w.caches ==> w.caches[p][0].shmid == w.table[0].shmid
  }

  lemma StillMapped(attached: map<int, map<int, int>>, p: int, a: int)
    requires p in attached && a in attached[p]
    ensures Mapped(attached, attached[p][a])
  {
  }

  /** Mapping more keeps alive what lives. */
  lemma MappedMore(w: World, w': World)
    requires Alive(w)
    requires forall p, a ::
      p in w.attached && a in w.attached[p] ==>
        p in w'.attached && a in w'.attached[p] && w'.attached[p][a] == w.attached[p][a]
    ensures forall id :: id in w.kernel ==> w.kernel[id] == 0 || Mapped(w'.attached, w.kernel[id])
    ensures w'.kernel == w.kernel ==> Alive(w')
  {
  }

  /** Unmapping keeps alive what is mapped at any other address. */
  lemma Reaped(w: World, p: int, addr: int, q: int, a: int, id: int)
    requires p in w.attached && q in w.attached && a in w.attached[q] && (q != p || a != addr)
    requires id in w.kernel && w.attached[q][a] == w.kernel[id]
    ensures var w' := Detach(w, p, addr);
      && id in w'.kernel && w'.kernel[id] == w.kernel[id]
      && q in w'.attached && a in w'.attached[q] && w'.attached[q][a] == w.attached[q][a]
  {
    var m := w.attached[p := w.attached[p] - {addr}];
    StillMapped(m, q, a);
  }

  lemma DetachKernel(w: World, p: int, addr: int)
    requires p in w.attached && KernelHolds(w)
    ensures KernelHolds(Detach(w, p, addr))
  {
  }

  /** Giving up an entry that is not the right one any more. */
  lemma DropEntry(w: World, p: int, i: nat)
    requires Core(w) && p in w.caches && 0 < i < ARENAS && w.caches[p][i].shmid != w.table[i].shmid
    ensures Core(Detach(SetEntry(w, p, i, NO_ENTRY), p, w.caches[p][i].addr))
  {
    hide Mapped;
    var addr := w.caches[p][i].addr;
    var w1 := SetEntry(w, p, i, NO_ENTRY);
    var w2 := Detach(w1, p, addr);
    assert EntryHolds(w, p, i);
    DetachKernel(w1, p, addr);
    forall q, j: nat | q in w2.caches && j < ARENAS ensures EntryHolds(w2, q, j) {
      DropOther(w, p, i, q, j);
    }
    forall j: nat | j < ARENAS ensures SlotHolds(w2, j) {
      DropSlot(w, p, i, j);
    }
  }

  lemma DropOther(w: World, p: int, i: nat, q: int, j: nat)
    requires Core(w) && p in w.caches && i < ARENAS && q in w.caches && j < ARENAS
    ensures WellFormed(Detach(SetEntry(w, p, i, NO_ENTRY), p, w.caches[p][i].addr))
    ensures EntryHolds(Detach(SetEntry(w, p, i, NO_ENTRY), p, w.caches[p][i].addr), q, j)
  {
    hide Mapped, SlotHolds;
    var w1 := SetEntry(w, p, i, NO_ENTRY);
    var e := w1.caches[q][j];
    assert EntryHolds(w, q, j) && EntryHolds(w, p, i);
    if e.shmid != 0 {
      Reaped(w1, p, w.caches[p][i].addr, q, e.addr, e.shmid);
    }
  }

  lemma DropSlot(w: World, p: int, i: nat, j: nat)
    requires Core(w) && p in w.caches && 0 < i < ARENAS && j < ARENAS && w.caches[p][i].shmid != w.table[i].shmid
    ensures WellFormed(Detach(SetEntry(w, p, i, NO_ENTRY), p, w.caches[p][i].addr))
    ensures SlotHolds(Detach(SetEntry(w, p, i, NO_ENTRY), p, w.caches[p][i].addr), j)
  {
    hide Mapped;
    var w1 := SetEntry(w, p, i, NO_ENTRY);
    assert SlotHolds(w, j) && EntryHolds(w, p, i);
    if j != 0 && w.table[j].kind != EmptyArena {
      var o := w.table[j].owner;
      assert EntryHolds(w, o, j);
      Reaped(w1, p, w.caches[p][i].addr, o, w.caches[o][j].addr, w.table[j].shmid);
    }
  }

  lemma AddressUnused(w: World, p: int, addr: int)
    requires Core(w) && p in w.caches && FreeAddress(w, p, addr)
    ensures forall k: nat :: k < ARENAS ==> w.caches[p][k].addr != addr
  {
    forall k: nat | k < ARENAS ensures w.caches[p][k].addr != addr {
      assert EntryHolds(w, p, k);
    }
  }

  /** Mapping the segment a row names. */
  lemma AddEntry(w: World, p: int, i: nat, addr: int)
    requires Core(w) && p in w.caches && i < ARENAS && ArenaValid(w, i) && w.caches[p][i] == NO_ENTRY
    requires FreeAddress(w, p, addr)
    ensures var (w1, base) := Attach(w, p, w.table[i].shmid, addr);
      && base == addr && Core(SetEntry(w1, p, i, Entry(base, w.table[i].shmid)))
      && w1.attached[p][base] == w.table[i].segment
  {
    var id := w.table[i].shmid;
    assert SlotHolds(w, i);
    var w1 := Attach(w, p, id, addr).0;
    var w2 := SetEntry(w1, p, i, Entry(addr, id));
    AddressUnused(w, p, addr);
    MappedMore(w, w2);
    hide Mapped, Alive;
    forall q, j: nat | q in w2.caches && j < ARENAS ensures EntryHolds(w2, q, j) {
      assert EntryHolds(w, q, j) && (q == p ==> EntryHolds(w, p, i));
    }
    forall j: nat | j < ARENAS ensures SlotHolds(w2, j) {
      assert SlotHolds(w, j);
    }
  }

  /** Whatever happened before, an arena in the table resolves to an address where this process has
      mapped the very segment the table names, and any other index to nothing; resolving again
      changes nothing. */
  lemma ResolveExact(w: World, p: int, i: nat, addr: int)
    requires Inv(w) && p in w.caches && i < ARENAS && FreeFor(w, p, i, addr)
    ensures var r := Resolve(w, p, i, addr);
      && r.Done? && Inv(r.w) && r.w.table == w.table && r.w.caches.Keys == w.caches.Keys
      && (r.result != NOWHERE <==> ArenaValid(w, i))
      && (ArenaValid(w, i) ==> r.result in r.w.attached[p] && r.w.attached[p][r.result] == w.table[i].segment)
      && r.w.caches[p][i] == (if ArenaValid(w, i) then Entry(r.result, w.table[i].shmid) else NO_ENTRY)
    ensures var r := Resolve(w, p, i, addr); forall other :: Resolve(r.w, p, i, other) == r
  {
    hide Mapped;
    var e := w.caches[p][i];
    assert SlotHolds(w, i) && EntryHolds(w, p, i);
    if e.shmid != w.table[i].shmid {
      GivenUpKeeps(w, p, i);
      hide GivenUp, EntryHolds, SlotHolds, KernelHolds;
      if ArenaValid(w, i) { AddEntry(GivenUp(w, p, i), p, i, addr); }
    }
  }

  lemma GivenUpKeeps(w: World, p: int, i: nat)
    requires Inv(w) && p in w.caches && i < ARENAS && w.caches[p][i].shmid != w.table[i].shmid
    ensures var w1 := GivenUp(w, p, i);
      && Core(w1) && i > 0 && w1.table == w.table && w1.caches == w.caches[p := w.caches[p][i := NO_ENTRY]]
  {
    hide Mapped;
    var e := w.caches[p][i];
    assert EntryHolds(w, p, i);
    if e.shmid != 0 {
      DropEntry(w, p, i);
      assert GivenUp(w, p, i) == Detach(SetEntry(w, p, i, NO_ENTRY), p, e.addr);
    } else {
      assert w.caches[p][i := NO_ENTRY] == w.caches[p];
      assert w.caches[p := w.caches[p]] == w.caches;
    }
  }

  /** The kernel may answer with the very address that has just been given up. */
  lemma SameAddressAgain(w: World, p: int, i: nat)
    requires Inv(w) && p in w.caches && i < ARENAS && w.caches[p][i] != NO_ENTRY
    requires w.caches[p][i].shmid != w.table[i].shmid
    ensures FreeFor(w, p, i, w.caches[p][i].addr)
  {
    assert EntryHolds(w, p, i);
  }

  // ----- what a step does to the mappings -----

  /** The kernel has dropped exactly the segments that nobody maps any more, but for the context's. */
  ghost predicate Dropped(w: World, w': World) {
    && (forall id :: id in w'.kernel <==> id in w.kernel && (w.kernel[id] == 0 || exists q, a ::
        q in w'.attached && a in w'.attached[q] && w'.attached[q][a] == w.kernel[id]))
    && forall id :: id in w'.kernel ==> w'.kernel[id] == w.kernel[id]
  }

  ghost predicate SameLost(w: World, w': World) {
    forall q, a :: Lost(w', q, a) <==> Lost(w, q, a)
  }

  /** Process `p` maps nothing at `a` any more; every other mapping of every process is as before, none
      has become one that no entry knows, and the kernel has dropped what nobody maps. */
  ghost predicate OnlyGone(w: World, w': World, p: int, a: int) {
    && p in w.attached && w'.attached == w.attached[p := w.attached[p] - {a}]
    && Dropped(w, w') && SameLost(w, w') && w'.made == w.made
  }

  lemma DroppedSame(w: World)
    requires Alive(w)
    ensures Dropped(w, w)
  {
  }

  lemma DroppedTwice(w0: World, w1: World, w2: World)
    requires Dropped(w0, w1) && Dropped(w1, w2)
    requires forall q, a ::
      q in w2.attached && a in w2.attached[q] ==>
        q in w1.attached && a in w1.attached[q] && w1.attached[q][a] == w2.attached[q][a]
    ensures Dropped(w0, w2)
  {
  }

  /** An entry is cleared and its address unmapped. */
  lemma DropMaps(w: World, p: int, i: nat)
    requires Core(w) && p in w.caches && i < ARENAS
    ensures var a := w.caches[p][i].addr; OnlyGone(w, Detach(SetEntry(w, p, i, NO_ENTRY), p, a), p, a)
  {
    hide SlotHolds, EntryHolds;
    DetachDrops(SetEntry(w, p, i, NO_ENTRY), p, w.caches[p][i].addr);
    hide Detach, Dropped, Alive;
    DropLost(w, p, i, Detach(SetEntry(w, p, i, NO_ENTRY), p, w.caches[p][i].addr));
  }

  lemma DetachDrops(w: World, p: int, a: int)
    requires p in w.attached
    ensures var w' := Detach(w, p, a);
      && Dropped(w, w') && w'.attached == w.attached[p := w.attached[p] - {a}] && w'.made == w.made
      && w'.caches == w.caches && w'.table == w.table
  {
  }

  lemma DropLost(w: World, p: int, i: nat, w': World)
    requires Core(w) && p in w.caches && i < ARENAS && w'.caches == w.caches[p := w.caches[p][i := NO_ENTRY]]
    requires w'.attached == w.attached[p := w.attached[p] - {w.caches[p][i].addr}]
    ensures SameLost(w, w')
  {
    hide SlotHolds, EntryHolds, Alive;
    forall q, b ensures Lost(w', q, b) <==> Lost(w, q, b) {
      if Lost(w', q, b) {
        forall j | 0 <= j < |w.caches[q]| ensures w.caches[q][j].addr != b {
          assert q != p || j != i ==> w'.caches[q][j] == w.caches[q][j];
        }
      }
    }
  }

  /** A mapping that is not the right one any more is taken away. */
  lemma GivenUpMaps(w: World, p: int, i: nat)
    requires Inv(w) && p in w.caches && i < ARENAS && w.caches[p][i].shmid != w.table[i].shmid
    ensures var w1 := GivenUp(w, p, i);
      OnlyGone(w, w1, p, w.caches[p][i].addr) && w1.caches == w.caches[p := w.caches[p][i := NO_ENTRY]]
  {
    hide Mapped, SlotHolds;
    GivenUpKeeps(w, p, i);
    var a := w.caches[p][i].addr;
    assert EntryHolds(w, p, i);
    if w.caches[p][i].shmid != 0 {
      DropMaps(w, p, i);
      assert GivenUp(w, p, i) == Detach(SetEntry(w, p, i, NO_ENTRY), p, a);
    } else {
      NoneAtNowhere(w, p);
      DroppedSame(w);
      assert w.attached[p := w.attached[p] - {a}] == w.attached;
    }
  }

  lemma NoneAtNowhere(w: World, p: int)
    requires KernelHolds(w) && p in w.attached
    ensures w.attached[p] - {NOWHERE} == w.attached[p]
  {
  }

  /** The right segment is mapped. */
  lemma AttachMaps(w: World, w1: World, p: int, i: nat, addr: int)
    requires Core(w1) && Dropped(w, w1) && SameLost(w, w1) && p in w1.caches && i < ARENAS && ArenaValid(w1, i)
    requires w1.caches[p][i] == NO_ENTRY && FreeAddress(w1, p, addr)
    requires forall id :: id in w.kernel && w.kernel[id] == w1.table[i].segment ==> id == w1.table[i].shmid
    ensures var (w2, base) := Attach(w1, p, w1.table[i].shmid, addr);
      var w3 := SetEntry(w2, p, i, Entry(base, w1.table[i].shmid));
      && base == addr && w3.attached == w1.attached[p := w1.attached[p][addr := w1.table[i].segment]]
      && Dropped(w, w3) && SameLost(w, w3) && w3.made == w1.made
      && w3.caches == w1.caches[p := w1.caches[p][i := Entry(addr, w1.table[i].shmid)]]
  {
    hide Mapped, EntryHolds, Alive;
    assert SlotHolds(w1, i);
    hide SlotHolds, KernelHolds;
    var w2 := Attach(w1, p, w1.table[i].shmid, addr).0;
    var w3 := SetEntry(w2, p, i, Entry(addr, w1.table[i].shmid));
    AttachDropped(w, w1, w3, p, addr, w1.table[i].shmid);
    AttachLost(w1, w3, p, i, addr, w1.table[i].shmid, w1.table[i].segment);
  }

  lemma AttachDropped(w: World, w1: World, w3: World, p: int, addr: int, id: int)
    requires Dropped(w, w1) && w3.kernel == w1.kernel && id in w1.kernel && p in w1.attached && addr !in w1.attached[p]
    requires w3.attached == w1.attached[p := w1.attached[p][addr := w1.kernel[id]]]
    requires forall k :: k in w.kernel && w.kernel[k] == w1.kernel[id] ==> k == id
    ensures Dropped(w, w3)
  {
    forall k ensures k in w3.kernel <==> k in w.kernel && (w.kernel[k] == 0 || exists q, a ::
      q in w3.attached && a in w3.attached[q] && w3.attached[q][a] == w.kernel[k]) {
      if k in w3.kernel && w.kernel[k] != 0 {
        var q, a :| q in w1.attached && a in w1.attached[q] && w1.attached[q][a] == w.kernel[k];
        assert q in w3.attached && a in w3.attached[q] && w3.attached[q][a] == w.kernel[k];
      }
      if k in w.kernel && exists q, a :: q in w3.attached && a in w3.attached[q] && w3.attached[q][a] == w.kernel[k] {
        var q, a :| q in w3.attached && a in w3.attached[q] && w3.attached[q][a] == w.kernel[k];
        if q != p || a != addr { assert w1.attached[q][a] == w.kernel[k]; }
      }
    }
  }

  lemma AttachLost(w1: World, w3: World, p: int, i: nat, addr: int, id: int, g: int)
    requires p in w1.caches && i < |w1.caches[p]| && w1.caches[p][i].addr == NOWHERE && p in w1.attached
    requires addr != NOWHERE && addr !in w1.attached[p] && KernelHolds(w1)
    requires w3.caches == w1.caches[p := w1.caches[p][i := Entry(addr, id)]]
    requires w3.attached == w1.attached[p := w1.attached[p][addr := g]]
    ensures SameLost(w1, w3)
  {
    if p in w3.caches { assert w3.caches[p][i].addr == addr; }
    forall q, b ensures Lost(w3, q, b) <==> Lost(w1, q, b) {
      if Lost(w3, q, b) {
        forall j | 0 <= j < |w1.caches[q]| ensures w1.caches[q][j].addr != b {
          assert q != p || j != i ==> w3.caches[q][j] == w1.caches[q][j];
        }
      }
    }
  }

  /** What get_or_update_arena_addr does to the mappings: where the entry has the id of the table, nothing;
      else the old mapping goes and the right one comes, at whatever address. The entry is the only one that
      changes, every other mapping is as before, and no mapping becomes one that no entry knows. */
  lemma ResolveMaps(w: World, p: int, i: nat, addr: int)
    requires Inv(w) && p in w.caches && i < ARENAS && FreeFor(w, p, i, addr)
    ensures var r, e := Resolve(w, p, i, addr), w.caches[p][i];
      && r.Done? && p in w.attached && p in r.w.caches && |r.w.caches[p]| == ARENAS
      && (e.shmid == w.table[i].shmid ==> r.w == w)
      && (e.shmid != w.table[i].shmid && !ArenaValid(w, i) ==>
        r.w.attached == w.attached[p := w.attached[p] - {e.addr}])
      && (e.shmid != w.table[i].shmid && ArenaValid(w, i) ==>
        r.result == addr && r.w.attached == w.attached[p := (w.attached[p] - {e.addr})[addr := w.table[i].segment]])
      && r.w.caches == w.caches[p := w.caches[p][i := r.w.caches[p][i]]]
      && Dropped(w, r.w) && SameLost(w, r.w) && r.w.made == w.made
  {
    ResolveExact(w, p, i, addr);
    ResolveCases(w, p, i, addr);
    hide Inv, Resolve, GivenUp, Attach, KernelHolds, Dropped, SameLost, Alive, SlotHolds, EntryHolds;
    var e := w.caches[p][i];
    if e.shmid == w.table[i].shmid {
      DroppedSame(w);
      EntrySame(w, p, i);
    } else {
      GivenUpKeeps(w, p, i);
      GivenUpMaps(w, p, i);
      if ArenaValid(w, i) {
        SegmentId(w, i);
        AttachMaps(w, GivenUp(w, p, i), p, i, addr);
        EntryTwice(w.caches, p, i, NO_ENTRY, Entry(addr, w.table[i].shmid));
        MappedTwice(w.attached, p, w.attached[p] - {e.addr}, addr, w.table[i].segment);
      }
    }
  }

  lemma ResolveCases(w: World, p: int, i: nat, addr: int)
    requires Inv(w) && p in w.caches && i < ARENAS
    ensures p in w.attached && Alive(w) && Core(w)
    ensures var r, w1 := Resolve(w, p, i, addr), GivenUp(w, p, i);
      if w.caches[p][i].shmid == w.table[i].shmid then r == Done(w, w.caches[p][i].addr)
      else if ArenaValid(w, i) then
        p in w1.attached && p in w1.caches && |w1.caches[p]| == ARENAS
        && var (w2, base) := Attach(w1, p, w.table[i].shmid, addr);
          r == Done(SetEntry(w2, p, i, Entry(base, w.table[i].shmid)), base)
      else r.Done? && r.w == w1
  {
    assert SlotHolds(w, i) && EntryHolds(w, p, i);
    hide KernelHolds, Alive, Mapped, Reap;
  }

  lemma EntryTwice(caches: map<int, seq<Entry>>, p: int, i: nat, e: Entry, f: Entry)
    requires p in caches && i < |caches[p]|
    ensures var c := caches[p := caches[p][i := e]]; c[p := c[p][i := f]] == caches[p := caches[p][i := f]]
  {
    assert caches[p][i := e][i := f] == caches[p][i := f];
  }

  lemma MappedTwice(attached: map<int, map<int, int>>, p: int, m: map<int, int>, a: int, g: int)
    ensures var n := attached[p := m]; n[p := n[p][a := g]] == attached[p := m[a := g]]
  {
  }

  lemma EntrySame(w: World, p: int, i: nat)
    requires p in w.caches && i < |w.caches[p]|
    ensures w.caches == w.caches[p := w.caches[p][i := w.caches[p][i]]]
  {
    assert w.caches[p][i := w.caches[p][i]] == w.caches[p];
  }

  lemma SegmentId(w: World, i: nat)
    requires Core(w) && i < ARENAS && ArenaValid(w, i)
    ensures forall id :: id in w.kernel && w.kernel[id] == w.table[i].segment ==> id == w.table[i].shmid
  {
    assert SlotHolds(w, i);
  }

  // ----- the other steps -----

  lemma NewArenaKeeps(w: World, p: int, kind: ArenaKind, id: int, addr: int)
    requires Inv(w) && p in w.caches && FreeId(w, id) && FreeAddress(w, p, addr)
    requires (kind == ChunkArena || kind == LargeArena)
    ensures var r := NewArena(w, p, kind, id, addr);
      && r.Done? && 0 <= r.result < ARENAS && (r.result == 0 <==> forall i :: 0 <= i < ARENAS ==> ArenaValid(w, i))
      && (r.result == 0 ==> r.w == w) && r.w.caches.Keys == w.caches.Keys
      && (r.result != 0 ==> !ArenaValid(w, r.result) && ArenaValid(r.w, r.result))
    ensures var r := NewArena(w, p, kind, id, addr);
      r.result != 0 ==>
        var s := r.w.table[r.result];
        && s.kind == kind && s.shmid == id && (forall k :: k in w.kernel ==> w.kernel[k] != s.segment)
        && (forall j :: 0 <= j < r.result ==> ArenaValid(w, j))
        && (forall j :: 0 <= j < ARENAS && j != r.result ==> r.w.table[j] == w.table[j])
        && r.w.attached == w.attached[p := w.attached[p][addr := s.segment]]
        && r.w.kernel == w.kernel[id := s.segment]
        && r.w.caches == w.caches[p := w.caches[p][r.result := Entry(addr, id)]]
  {
    var i := FirstEmpty(w.table, 1);
    assert SlotHolds(w, 0) && ArenaValid(w, 0);
    if i < ARENAS {
      assert !ArenaValid(w, i);
    } else {
      forall j: nat | j < ARENAS ensures ArenaValid(w, j) { }
    }
  }

  lemma NewArenaInv(w: World, p: int, kind: ArenaKind, id: int, addr: int)
    requires Inv(w) && p in w.caches && FreeId(w, id) && FreeAddress(w, p, addr)
    requires (kind == ChunkArena || kind == LargeArena)
    ensures Inv(NewArena(w, p, kind, id, addr).w)
  {
    hide EntryHolds, KernelHolds, SlotHolds, Alive;
    var i := FirstEmpty(w.table, 1);
    if i < ARENAS {
      var w' := NewArena(w, p, kind, id, addr).w;
      AddressUnused(w, p, addr);
      NewKernel(w, p, kind, id, addr);
      NewAlive(w, p, kind, id, addr);
      forall j: nat | j < ARENAS ensures SlotHolds(w', j) { NewSlot(w, p, kind, id, addr, j); }
      forall q, j: nat | q in w'.caches && j < ARENAS ensures EntryHolds(w', q, j) {
        NewEntry(w, p, kind, id, addr, q, j);
      }
    }
  }

  lemma NewKernel(w: World, p: int, kind: ArenaKind, id: int, addr: int)
    requires WellFormed(w) && KernelHolds(w) && p in w.caches && FreeId(w, id) && FreeAddress(w, p, addr)
    ensures KernelHolds(NewArena(w, p, kind, id, addr).w)
  {
  }

  lemma NewAlive(w: World, p: int, kind: ArenaKind, id: int, addr: int)
    requires WellFormed(w) && Alive(w) && p in w.caches && FreeId(w, id) && FreeAddress(w, p, addr)
    ensures Alive(NewArena(w, p, kind, id, addr).w)
  {
    hide Mapped;
    var w' := NewArena(w, p, kind, id, addr).w;
    MappedMore(w, w');
    if w' != w { StillMapped(w'.attached, p, addr); }
  }

  lemma NewSlot(w: World, p: int, kind: ArenaKind, id: int, addr: int, j: nat)
    requires Core(w) && p in w.caches && FreeId(w, id) && FreeAddress(w, p, addr)
    requires (kind == ChunkArena || kind == LargeArena) && j < ARENAS
    ensures SlotHolds(NewArena(w, p, kind, id, addr).w, j)
  {
    hide EntryHolds;
    assert SlotHolds(w, j);
  }

  lemma NewEntry(w: World, p: int, kind: ArenaKind, id: int, addr: int, q: int, j: nat)
    requires Core(w) && p in w.caches && FreeId(w, id) && FreeAddress(w, p, addr) && q in w.caches && j < ARENAS
    requires forall k: nat :: k < ARENAS ==> w.caches[p][k].addr != addr
    ensures EntryHolds(NewArena(w, p, kind, id, addr).w, q, j)
  {
    hide SlotHolds;
    assert EntryHolds(w, q, j);
  }

  /** Process `p` has deleted the arena of index `i`: the address it had for it is unmapped and forgotten,
      nothing else in any process has changed, and the kernel has the segment if and only if some process
      maps it. */
  ghost predicate ArenaGone(w: World, w': World, p: int, i: nat) {
    && p in w.caches && i < |w.caches[p]| && i < |w.table| && p in w'.attached
    && w.caches[p][i].addr !in w'.attached[p] && OnlyGone(w, w', p, w.caches[p][i].addr)
    && w'.caches == w.caches[p := w.caches[p][i := NO_ENTRY]]
    && (ArenaValid(w, i) ==> (w.table[i].shmid in w'.kernel <==> exists q, b ::
      q in w'.attached && b in w'.attached[q] && w'.attached[q][b] == w.table[i].segment))
  }

  /** Deleting an arena goes through exactly if this process has an address for its index. */
  lemma DeleteArenaKeeps(w: World, p: int, i: nat)
    requires Inv(w) && p in w.caches && 0 < i < ARENAS
    ensures var r := DeleteArena(w, p, i);
      && (r.Done? <==> w.caches[p][i].addr != NOWHERE)
      && (r.Done? ==> Inv(r.w) && r.w.table == w.table[i := NO_ARENA] && r.w.caches.Keys == w.caches.Keys)
    ensures var r := DeleteArena(w, p, i);
      r.Done? ==>
        && ArenaGone(w, r.w, p, i) && r.w.table[i] == NO_ARENA && r.w.caches[p][i] == NO_ENTRY
        && r.w.attached == w.attached[p := w.attached[p] - {w.caches[p][i].addr}]
  {
    assert SlotHolds(w, i);
    if w.caches[p][i].addr != NOWHERE {
      var w0 := w.(table := w.table[i := NO_ARENA]);
      assert EntryHolds(w, p, i);
      forall q, j: nat | q in w0.caches && j < ARENAS ensures EntryHolds(w0, q, j) { assert EntryHolds(w, q, j); }
      forall j: nat | j < ARENAS ensures SlotHolds(w0, j) { assert SlotHolds(w, j); }
      DropEntry(w0, p, i);
      hide EntryHolds, SlotHolds, Alive, KernelHolds;
      DropMaps(w0, p, i);
      SameMaps(w, w0, DeleteArena(w, p, i).w, p, w.caches[p][i].addr);
    }
  }

  /** The table has no part in it. */
  lemma SameMaps(w: World, w0: World, w': World, p: int, a: int)
    requires OnlyGone(w0, w', p, a) && w0 == w.(table := w0.table)
    ensures OnlyGone(w, w', p, a)
  {
  }

  lemma ResolveThenDelete(w: World, p: int, i: nat, addr: int)
    requires Inv(w) && p in w.caches && 0 < i < ARENAS && FreeFor(w, p, i, addr) && ArenaValid(w, i)
    ensures var r := Resolve(w, p, i, addr); r.Done? && WellFormed(r.w) && p in r.w.caches
    ensures var r := DeleteArena(Resolve(w, p, i, addr).w, p, i);
      && r.Done? && ArenaGone(w, r.w, p, i)
      && r.w.attached == w.attached[p := w.attached[p] - {w.caches[p][i].addr}]
  {
    ResolveExact(w, p, i, addr);
    ResolveMaps(w, p, i, addr);
    var w1 := Resolve(w, p, i, addr).w;
    InvFormed(w1);
    DeleteArenaKeeps(w1, p, i);
    var w2 := DeleteArena(w1, p, i).w;
    FreeOld(w, p, i, addr);
    hide Inv, Resolve, DeleteArena, Dropped, SameLost;
    EntryTwice(w.caches, p, i, w1.caches[p][i], NO_ENTRY);
    var e := w.caches[p][i];
    if e.shmid != w.table[i].shmid { MapUnmap(w.attached, p, e.addr, addr, w.table[i].segment); }
    DroppedBoth(w, w1, w2, p, w1.caches[p][i].addr);
  }

  lemma FreeOld(w: World, p: int, i: nat, addr: int)
    requires Inv(w) && p in w.caches && i < ARENAS && FreeFor(w, p, i, addr)
    ensures p in w.attached && (addr == w.caches[p][i].addr || addr !in w.attached[p])
  {
    if w.caches[p][i].shmid != w.table[i].shmid { GivenUpMaps(w, p, i); }
  }

  lemma MapUnmap(attached: map<int, map<int, int>>, p: int, a: int, b: int, g: int)
    requires p in attached && (b == a || b !in attached[p])
    ensures var n := attached[p := (attached[p] - {a})[b := g]];
      n[p := n[p] - {b}] == attached[p := attached[p] - {a}]
  {
    assert (attached[p] - {a})[b := g] - {b} == attached[p] - {a};
  }

  lemma DroppedBoth(w: World, w1: World, w2: World, p: int, b: int)
    requires Dropped(w, w1) && SameLost(w, w1) && OnlyGone(w1, w2, p, b)
    ensures Dropped(w, w2) && SameLost(w, w2)
  {
    hide Lost;
    DroppedTwice(w, w1, w2);
  }

  /** Freeing in an arena stops the process exactly if the block is a large one and this process
      has never had an address for its index since it last gave one up. */
  lemma FreeArenaExact(w: World, p: int, i: nat, last: bool, addr: int)
    requires Inv(w) && p in w.caches && FreeFor(w, p, i, addr)
    ensures var r := FreeArena(w, p, i, last, addr);
      && (r.Aborted? <==> ArenaValid(w, i) && w.table[i].kind == LargeArena && w.caches[p][i].addr == NOWHERE)
      && (r.Done? ==> Inv(r.w) && r.w.caches.Keys == w.caches.Keys)
      && (r.Done? && ArenaValid(w, i) ==>
        var gone := w.table[i].kind == LargeArena || (last && w.table[i].kind == ChunkArena);
        r.w.table == if gone then w.table[i := NO_ARENA] else w.table)
    ensures var r := FreeArena(w, p, i, last, addr);
      r.Done? ==>
        if !ArenaValid(w, i) then r.w == w
        else if w.table[i].kind == LargeArena || (last && w.table[i].kind == ChunkArena)
        then ArenaGone(w, r.w, p, i) && r.w.attached == w.attached[p := w.attached[p] - {w.caches[p][i].addr}]
        else r == Done(Resolve(w, p, i, addr).w, 0)
  {
    hide Detach, Resolve, EntryHolds, KernelHolds, OnlyGone;
    if ArenaValid(w, i) {
      assert SlotHolds(w, 0) && SlotHolds(w, i);
      if w.table[i].kind == LargeArena {
        DeleteArenaKeeps(w, p, i);
      } else {
        ResolveExact(w, p, i, addr);
        if i != 0 {
          DeleteArenaKeeps(Resolve(w, p, i, addr).w, p, i);
          ResolveThenDelete(w, p, i, addr);
        }
      }
    }
  }

  /** Addresses for the mappings of a new process: free there, each given once. */
  predicate FreshAddresses(addrs: seq<int>) {
    |addrs| == ARENAS && (forall i :: 0 <= i < ARENAS ==> addrs[i] != NOWHERE)
    && forall i, j :: 0 <= i < j < ARENAS ==> addrs[i] != addrs[j]
  }

  lemma {:induction false} MapAllKeeps(w: World, p: int, i: nat, addrs: seq<int>)
    requires Core(w) && p in w.caches && i <= ARENAS && FreshAddresses(addrs)
    requires forall j: nat :: i <= j < ARENAS ==> w.caches[p][j] == NO_ENTRY && addrs[j] !in w.attached[p]
    ensures var w' := MapAll(w, p, i, addrs);
      && Core(w') && w'.table == w.table && w'.caches.Keys == w.caches.Keys
      && (forall q :: q in w.caches && q != p ==> w'.caches[q] == w.caches[q] && w'.attached[q] == w.attached[q])
      && w'.kernel == w.kernel && (forall a :: a in w'.attached[p] ==> a in w.attached[p] || a in addrs)
      && (forall j :: 0 <= j < i ==> w'.caches[p][j] == w.caches[p][j])
      && (forall j: nat :: i <= j < ARENAS ==> w'.caches[p][j].shmid == w.table[j].shmid)
      && SameLost(w, w')
    decreases ARENAS - i
  {
    hide SlotHolds, EntryHolds, KernelHolds, SameLost;
    AllSame(w);
    if i < ARENAS {
      MapOneKeeps(w, p, i, addrs);
      MapAllKeeps(MapOne(w, p, i, addrs[i]), p, i + 1, addrs);
      SameTwice(w, MapOne(w, p, i, addrs[i]), MapAll(w, p, i, addrs));
    }
  }

  lemma MapOneKeeps(w: World, p: int, i: nat, addrs: seq<int>)
    requires Core(w) && p in w.caches && i < ARENAS && FreshAddresses(addrs)
    requires forall j: nat :: i <= j < ARENAS ==> w.caches[p][j] == NO_ENTRY && addrs[j] !in w.attached[p]
    ensures var w' := MapOne(w, p, i, addrs[i]);
      && Core(w') && w'.table == w.table && w'.caches.Keys == w.caches.Keys
      && (forall q :: q in w.caches && q != p ==> w'.caches[q] == w.caches[q] && w'.attached[q] == w.attached[q])
      && w'.kernel == w.kernel && (forall a :: a in w'.attached[p] ==> a in w.attached[p] || a in addrs)
      && (forall j :: 0 <= j < ARENAS && j != i ==> w'.caches[p][j] == w.caches[p][j])
      && w'.caches[p][i].shmid == w.table[i].shmid
      && (forall j: nat :: i < j < ARENAS ==> addrs[j] !in w'.attached[p])
      && SameLost(w, w')
  {
    hide EntryHolds, KernelHolds, SameLost;
    assert SlotHolds(w, i);
    if ArenaValid(w, i) {
      AddEntry(w, p, i, addrs[i]);
      AttachLost(w, MapOne(w, p, i, addrs[i]), p, i, addrs[i], w.table[i].shmid, w.table[i].segment);
    } else {
      AllSame(w);
    }
  }

  lemma AllSame(w: World)
    ensures SameLost(w, w)
  {
  }

  lemma SameTwice(w0: World, w1: World, w2: World)
    requires SameLost(w0, w1) && SameLost(w1, w2)
    ensures SameLost(w0, w2)
  {
    hide Lost;
  }

  lemma NewcomerKeeps(w: World, p: int)
    requires Core(w) && p !in w.caches
    ensures Core(Newcomer(w, p)) && SameLost(w, Newcomer(w, p))
  {
    hide KernelHolds;
    var w1 := Newcomer(w, p);
    assert KernelHolds(w1) by { NewcomerKernel(w, p); }
    MappedMore(w, w1);
    hide Alive;
    forall q, j: nat | q in w1.caches && j < ARENAS ensures EntryHolds(w1, q, j) {
      NewcomerEntry(w, p, q, j);
    }
    hide EntryHolds;
    forall j: nat | j < ARENAS ensures SlotHolds(w1, j) { assert SlotHolds(w, j); }
  }

  lemma NewcomerKernel(w: World, p: int)
    requires KernelHolds(w)
    ensures KernelHolds(Newcomer(w, p))
  {
  }

  lemma NewcomerEntry(w: World, p: int, q: int, j: nat)
    requires Core(w) && p !in w.caches && (q == p || q in w.caches) && j < ARENAS
    ensures EntryHolds(Newcomer(w, p), q, j)
  {
    if q != p { assert EntryHolds(w, q, j); }
  }

  lemma JoinKeeps(w: World, p: int, addrs: seq<int>)
    requires Inv(w) && p !in w.caches && FreshAddresses(addrs)
    ensures var w' := Join(w, p, addrs);
      && Inv(w') && w'.table == w.table && w'.caches.Keys == w.caches.Keys + {p}
      && (forall q :: q in w.caches ==> w'.caches[q] == w.caches[q] && w'.attached[q] == w.attached[q])
      && w'.kernel == w.kernel && (forall a :: a in w'.attached[p] ==> a in addrs)
      && (forall j: nat :: j < ARENAS ==> w'.caches[p][j].shmid == w.table[j].shmid)
      && SameLost(w, w')
  {
    hide SlotHolds, EntryHolds, KernelHolds, MapAll, SameLost;
    NewcomerKeeps(w, p);
    MapAllKeeps(Newcomer(w, p), p, 0, addrs);
    SameTwice(w, Newcomer(w, p), Join(w, p, addrs));
  }

  // ----- runs -----

  datatype Step =
    | Init(p: int, addrs: seq<int>)
    | New(p: int, kind: ArenaKind, id: int, addr: int)
    | Use(p: int, index: int, addr: int)
    | Free(p: int, index: int, last: bool, addr: int)

  /** The step can be tried: the process takes part, the kernel keeps its promises. */
  ghost predicate Possible(w: World, s: Step) {
    match s
    case Init(p, addrs) => p !in w.caches && FreshAddresses(addrs)
    case New(p, kind, id, addr) => p in w.caches && FreeId(w, id) && FreeAddress(w, p, addr)
      && (kind == ChunkArena || kind == LargeArena)
    case Use(p, index, addr) => p in w.caches && 0 <= index < ARENAS && FreeFor(w, p, index, addr)
    case Free(p, index, _, addr) => p in w.caches && 0 <= index && FreeFor(w, p, index, addr)
  }

  ghost function Apply(w: World, s: Step): Outcome
    requires WellFormed(w) && Possible(w, s)
  {
    match s
    case Init(p, addrs) => Done(Join(w, p, addrs), 0)
    case New(p, kind, id, addr) => NewArena(w, p, kind, id, addr)
    case Use(p, index, addr) => Resolve(w, p, index, addr)
    case Free(p, index, last, addr) => FreeArena(w, p, index, last, addr)
  }

  /** Only the context's segment, nobody there yet. */
  function Start(id: int): World {
    World([Slot(ContextArena, id, 0, 0)] + seq(ARENAS - 1, i => NO_ARENA), map[], map[id := 0], map[], 1)
  }

  /** `steps` can be taken from `w` one after the other, none stops its process, and they end in `w'`. */
  ghost predicate Reaches(w: World, steps: seq<Step>, w': World)
    decreases |steps|
  {
    if steps == [] then w' == w
    else
      && WellFormed(w) && Possible(w, steps[0])
      && Apply(w, steps[0]).Done? && Reaches(Apply(w, steps[0]).w, steps[1..], w')
  }

  lemma StepKeeps(w: World, s: Step)
    requires Inv(w) && Possible(w, s)
    ensures Apply(w, s).Done? ==> Inv(Apply(w, s).w)
    ensures Apply(w, s).Aborted? <==>
      (s.Free? && ArenaValid(w, s.index) && w.table[s.index].kind == LargeArena
       && w.caches[s.p][s.index].addr == NOWHERE)
  {
    hide Inv, Resolve, NewArena, FreeArena, Join;
    match s
    case Init(p, addrs) => JoinKeeps(w, p, addrs);
    case New(p, kind, id, addr) => NewArenaKeeps(w, p, kind, id, addr); NewArenaInv(w, p, kind, id, addr);
    case Use(p, index, addr) => ResolveExact(w, p, index, addr);
    case Free(p, index, last, addr) => FreeArenaExact(w, p, index, last, addr);
  }

  lemma StartHolds(id: int)
    requires id > 0
    ensures Inv(Start(id))
  {
    forall i: nat | i < ARENAS ensures SlotHolds(Start(id), i) { }
  }

  lemma {:induction false} RunKeeps(w: World, steps: seq<Step>, w': World)
    requires Inv(w) && Reaches(w, steps, w')
    ensures Inv(w')
    decreases |steps|
  {
    hide Inv, Apply;
    if steps != [] {
      StepKeeps(w, steps[0]);
      RunKeeps(Apply(w, steps[0]).w, steps[1..], w');
    }
  }

  /** After any run of any number of processes, an index in the table resolves to an address where
      the process has mapped the segment the table names now, and never stops the process. */
  lemma EveryRun(id: int, steps: seq<Step>, w: World, p: int, i: nat, addr: int)
    requires id > 0 && Reaches(Start(id), steps, w)
    requires i < ARENAS && FreeFor(w, p, i, addr)
    ensures Resolve(w, p, i, addr).Done?
    ensures var r := Resolve(w, p, i, addr);
      if ArenaValid(w, i) then r.result in r.w.attached[p] && r.w.attached[p][r.result] == w.table[i].segment
      else r.result == NOWHERE
  {
    StartHolds(id);
    RunKeeps(Start(id), steps, w);
    ResolveExact(w, p, i, addr);
  }

  /** A new arena changes nothing for the other processes. */
  lemma NewArenaOthers(w: World, p: int, kind: ArenaKind, id: int, addr: int, q: int)
    requires Inv(w) && p in w.caches && q in w.caches && (q != p || FirstEmpty(w.table, 1) == ARENAS)
    ensures var r := NewArena(w, p, kind, id, addr);
      && r.Done? && |r.w.table| == ARENAS
      && r.w.caches.Keys == w.caches.Keys && r.w.attached.Keys == w.attached.Keys
      && r.w.caches[q] == w.caches[q] && r.w.attached[q] == w.attached[q]
      && (w.table[1].kind == EmptyArena ==> r.result == 1 && r.w.table[1].kind == kind)
  {
  }

  /** A large block can be made by one process and not freed by another: the second one has joined
      earlier and never asked for an address in that arena. If it asks first, it can. */
  lemma LargeFreedElsewhere(id: int, addrs: seq<int>, id1: int, addr: int) returns (steps: seq<Step>, w: World)
    requires id > 0 && FreshAddresses(addrs) && id1 > 0 && id1 != id && addr != NOWHERE && addr !in addrs
    ensures Reaches(Start(id), steps, w) && Inv(w) && 2 in w.caches && FreeAddress(w, 2, addr)
    ensures ArenaValid(w, 1) && Apply(w, Free(2, 1, false, addr)) == Aborted
    ensures var r := Resolve(w, 2, 1, addr);
      r.Done? && WellFormed(r.w) && 2 in r.w.caches && DeleteArena(r.w, 2, 1).Done?
  {
    var s1, s2, s3 := Init(1, addrs), Init(2, addrs), New(1, LargeArena, id1, addr);
    var w2 := BothJoined(id, addrs);
    hide Inv, Core, EntryHolds, SlotHolds, KernelHolds, Resolve, NewArena, FreeArena, Join, Reap, FreshAddresses, Start;
    NewArenaInv(w2, 1, LargeArena, id1, addr);
    NewArenaOthers(w2, 1, LargeArena, id1, addr, 2);
    w := NewArena(w2, 1, LargeArena, id1, addr).w;
    steps := [s1] + ([s2] + ([s3] + []));
    assert Reaches(Start(id), steps, w) by {
      Extend(w2, s3, [], w);
      Extend(Join(Start(id), 1, addrs), s2, [s3] + [], w);
      Extend(Start(id), s1, [s2] + ([s3] + []), w);
    }
    hide Reaches, Apply;
    LastStep(w, id, addr);
  }

  lemma LastStep(w: World, id: int, addr: int)
    requires Inv(w) && 2 in w.caches && FreeAddress(w, 2, addr) && ArenaValid(w, 1) && w.table[1].kind == LargeArena
    requires w.caches[2][1].addr == NOWHERE
    ensures Apply(w, Free(2, 1, false, addr)) == Aborted
    ensures var r := Resolve(w, 2, 1, addr);
      r.Done? && WellFormed(r.w) && 2 in r.w.caches && DeleteArena(r.w, 2, 1).Done?
  {
    hide Resolve, DeleteArena;
    FreeArenaExact(w, 2, 1, false, addr);
    ResolveExact(w, 2, 1, addr);
    DeleteArenaKeeps(Resolve(w, 2, 1, addr).w, 2, 1);
  }

  lemma Extend(w: World, s: Step, steps: seq<Step>, w': World)
    requires WellFormed(w) && Possible(w, s) && Apply(w, s).Done? && Reaches(Apply(w, s).w, steps, w')
    ensures Reaches(w, [s] + steps, w')
  {
    assert ([s] + steps)[1..] == steps;
  }

  lemma BothJoined(id: int, addrs: seq<int>) returns (w2: World)
    requires id > 0 && FreshAddresses(addrs)
    ensures Inv(Start(id)) && 1 !in Start(id).caches && w2.table == Start(id).table && w2.table[1] == NO_ARENA
    ensures Inv(w2)
    ensures var w1 := Join(Start(id), 1, addrs); Inv(w1) && 2 !in w1.caches && w2 == Join(w1, 2, addrs)
    ensures w2.kernel.Keys == {id} && 1 in w2.caches && 2 in w2.caches && w2.caches[2][1] == NO_ENTRY
    ensures 1 in w2.attached && 2 in w2.attached
    ensures forall a :: a in w2.attached[1] || a in w2.attached[2] ==> a in addrs
  {
    StartFacts(id);
    hide Inv, Join, Start, FreshAddresses;
    JoinKeeps(Start(id), 1, addrs);
    var w1 := Join(Start(id), 1, addrs);
    JoinedAttached(w1, 1);
    JoinKeeps(w1, 2, addrs);
    w2 := Join(w1, 2, addrs);
    JoinedAttached(w2, 2);
    EmptyEntry(w2, 2, 1);
  }

  lemma StartFacts(id: int)
    requires id > 0
    ensures var w0 := Start(id);
      Inv(w0) && w0.table[1] == NO_ARENA && 1 !in w0.caches && 2 !in w0.caches && w0.kernel.Keys == {id}
  {
    StartHolds(id);
  }

  lemma JoinedAttached(w: World, p: int)
    requires Inv(w) && p in w.caches
    ensures p in w.attached
  {
  }

  lemma EmptyEntry(w: World, p: int, i: nat)
    requires Inv(w) && p in w.caches && 0 < i < ARENAS && w.table[i] == NO_ARENA
    requires w.caches[p][i].shmid == w.table[i].shmid
    ensures w.caches[p][i].addr == NOWHERE && w.caches[p][i] == NO_ENTRY && w.caches.Keys == w.attached.Keys
  {
    assert EntryHolds(w, p, i);
  }

  // ----- lost mappings -----

  /** Addresses still mapped that no entry of the process remembers. */
  ghost predicate Lost(w: World, p: int, a: int) {
    p in w.attached && a in w.attached[p] && p in w.caches && forall i :: 0 <= i < |w.caches[p]| ==>
      w.caches[p][i].addr != a
  }

  /** Making an arena loses a mapping exactly if the process had never noticed that the former arena
      of that index is gone. */
  lemma NewArenaLoses(w: World, p: int, kind: ArenaKind, id: int, addr: int, a: int)
    requires Inv(w) && p in w.caches && FreeId(w, id) && FreeAddress(w, p, addr) && FirstEmpty(w.table, 1) < ARENAS
    ensures var e := w.caches[p][FirstEmpty(w.table, 1)];
      Lost(NewArena(w, p, kind, id, addr).w, p, a) <==> Lost(w, p, a) || (e != NO_ENTRY && a == e.addr)
  {
    var i := FirstEmpty(w.table, 1);
    var e, w' := w.caches[p][i], NewArena(w, p, kind, id, addr).w;
    assert EntryHolds(w, p, i);
    assert w'.caches[p][i].addr == addr;
    AddressUnused(w, p, addr);
    forall j: nat | j < ARENAS && j != i ensures w'.caches[p][j] == w.caches[p][j] { }
    if Lost(w', p, a) && !Lost(w, p, a) {
      var j: int :| 0 <= j < ARENAS && w.caches[p][j].addr == a;
    }
  }

  /** What a step of one process leaves to the others, and what it can map. */
  ghost predicate Mine(w: World, w': World, p: int, addr: int) {
    && w'.kernel.Keys <= w.kernel.Keys && w'.attached.Keys == w.attached.Keys && p in w.attached
    && (forall q :: q in w.attached && q != p ==> w'.attached[q] == w.attached[q])
    && (forall q :: q in w.caches && q != p ==> q in w'.caches && w'.caches[q] == w.caches[q])
    && forall a :: a in w'.attached[p] ==> a in w.attached[p] || a == addr
  }

  lemma ResolveMine(w: World, p: int, i: nat, addr: int)
    requires WellFormed(w) && p in w.caches && i < ARENAS
    ensures Resolve(w, p, i, addr).Done? ==> Mine(w, Resolve(w, p, i, addr).w, p, addr)
  {
    hide Mapped;
    var w1 := GivenUp(w, p, i);
    assert Mine(w, w1, p, addr);
    hide GivenUp;
  }

  lemma DeleteMine(w: World, p: int, i: nat, addr: int)
    requires WellFormed(w) && p in w.caches && i < ARENAS
    ensures DeleteArena(w, p, i).Done? ==> Mine(w, DeleteArena(w, p, i).w, p, addr)
  {
  }

  /** Process 2 asks for an arena that process 1 has made, process 1 gives it up, and process 2 makes one
      in its place: its old mapping is still there, and none of its entries knows it. */
  lemma MappingLost(id: int, addrs: seq<int>, id1: int, a1: int, b: int, id2: int, a2: int)
    returns (steps: seq<Step>, w: World)
    requires id > 0 && FreshAddresses(addrs) && id1 > 0 && id2 > 0 && id1 != id && id2 != id && id2 != id1
    requires NOWHERE !in {a1, b, a2} && a1 !in addrs && b !in addrs && a2 !in addrs && a1 != b && a2 != b
    ensures Reaches(Start(id), steps, w) && Inv(w) && Lost(w, 2, b) && b in w.attached[2]
  {
    var w2 := BothJoined(id, addrs);
    hide *;
    var w1 := Join(Start(id), 1, addrs);
    var w3 := FirstMade(id, w2, id1, a1, b);
    var w4 := SecondUses(id, w2, w3, id1, b);
    var w5 := FirstGivesUp(w4, id1, b);
    Outsiders(w2, w3, w4, w5, id, addrs, id1, id2, b, a2);
    SecondMakes(w5, id1, id2, b, a2);
    w := NewArena(w5, 2, ChunkArena, id2, a2).w;
    steps := AllSteps(id, addrs, w1, w2, w3, w4, w5, w, id1, a1, b, id2, a2);
  }

  lemma FirstMade(id: int, w2: World, id1: int, a1: int, b: int) returns (w3: World)
    requires Inv(w2) && 1 in w2.caches && 2 in w2.caches && id1 > 0 && id1 !in w2.kernel && w2.table[1] == NO_ARENA
    requires FreeAddress(w2, 1, a1) && FreeAddress(w2, 2, b) && FreeAddress(w2, 1, b) && a1 != b
    ensures NewArena(w2, 1, ChunkArena, id1, a1) == Done(w3, 1) && Inv(w3) && w3.caches.Keys == w2.caches.Keys
    ensures w3.table[1].kind == ChunkArena && w3.table[1].shmid == id1 && w3.kernel.Keys == w2.kernel.Keys + {id1}
    ensures w3.caches[1][1] == Entry(a1, id1) && FreeAddress(w3, 1, b)
    ensures w3.attached[2] == w2.attached[2] && 2 in w3.attached && w3.caches[2] == w2.caches[2]
    ensures FreeAddress(w3, 2, b) && ArenaValid(w3, 1)
  {
    hide EntryHolds, SlotHolds, KernelHolds;
    NewArenaInv(w2, 1, ChunkArena, id1, a1);
    w3 := NewArena(w2, 1, ChunkArena, id1, a1).w;
  }

  lemma SecondUses(id: int, w2: World, w3: World, id1: int, b: int) returns (w4: World)
    requires Inv(w3) && 1 in w3.caches && 2 in w3.caches && ArenaValid(w3, 1) && w3.table[1].shmid == id1
    requires w3.caches[2][1] == NO_ENTRY && FreeAddress(w3, 2, b) && FreeAddress(w3, 1, b)
    requires w3.caches[1][1].shmid == id1
    ensures FreeFor(w3, 2, 1, b) && Resolve(w3, 2, 1, b) == Done(w4, b) && Inv(w4) && w4.table == w3.table
    ensures w4.caches.Keys == w3.caches.Keys && w4.caches[2][1] == Entry(b, id1) && w4.caches[1] == w3.caches[1]
    ensures Mine(w3, w4, 2, b) && FreeAddress(w4, 1, b)
  {
    assert FreeFor(w3, 2, 1, b);
    ResolveExact(w3, 2, 1, b);
    ResolveMine(w3, 2, 1, b);
    hide EntryHolds, SlotHolds, KernelHolds, Mapped;
    w4 := Resolve(w3, 2, 1, b).w;
  }

  lemma FirstGivesUp(w4: World, id1: int, b: int) returns (w5: World)
    requires Inv(w4) && 1 in w4.caches && 2 in w4.caches && ArenaValid(w4, 1) && w4.table[1].kind == ChunkArena
    requires w4.table[1].shmid == id1 && w4.caches[1][1].shmid == id1 && FreeAddress(w4, 1, b)
    ensures FreeFor(w4, 1, 1, b) && FreeArena(w4, 1, 1, true, b) == Done(w5, 0) && Inv(w5)
    ensures w5.table == w4.table[1 := NO_ARENA] && w5.caches.Keys == w4.caches.Keys && Mine(w4, w5, 1, b)
  {
    assert FreeFor(w4, 1, 1, b);
    FreeArenaExact(w4, 1, 1, true, b);
    DeleteMine(w4, 1, 1, b);
    hide EntryHolds, SlotHolds, KernelHolds, DeleteArena;
    w5 := FreeArena(w4, 1, 1, true, b).w;
  }

  lemma Outsiders(w2: World, w3: World, w4: World, w5: World, id: int, addrs: seq<int>, id1: int, id2: int, b: int,
      a2: int)
    requires w2.kernel.Keys == {id} && w3.kernel.Keys == w2.kernel.Keys + {id1} && id2 != id && id2 != id1 && id2 > 0
    requires Mine(w3, w4, 2, b) && Mine(w4, w5, 1, b) && 2 in w2.attached && 2 in w3.attached
    requires w3.attached[2] == w2.attached[2] && (forall a :: a in w2.attached[2] ==> a in addrs)
    requires a2 !in addrs && a2 != b && a2 != NOWHERE
    ensures FreeId(w5, id2) && FreeAddress(w5, 2, a2)
  {
  }

  lemma SecondMakes(w5: World, id1: int, id2: int, b: int, a2: int)
    requires Inv(w5) && 2 in w5.caches && w5.table[1] == NO_ARENA && w5.caches[2][1] == Entry(b, id1) && b != NOWHERE
    requires FreeId(w5, id2) && FreeAddress(w5, 2, a2)
    ensures var r := NewArena(w5, 2, ChunkArena, id2, a2);
      r.Done? && Inv(r.w) && Lost(r.w, 2, b) && b in r.w.attached[2]
  {
    NewArenaLoses(w5, 2, ChunkArena, id2, a2, b);
    NewArenaInv(w5, 2, ChunkArena, id2, a2);
  }

  lemma AllSteps(id: int, addrs: seq<int>, w1: World, w2: World, w3: World, w4: World, w5: World, w: World, id1: int,
      a1: int, b: int, id2: int, a2: int) returns (steps: seq<Step>)
    requires FreshAddresses(addrs) && Inv(Start(id)) && 1 !in Start(id).caches && w1 == Join(Start(id), 1, addrs)
    requires Inv(w1) && 2 !in w1.caches && w2 == Join(w1, 2, addrs) && Inv(w2) && Inv(w3) && Inv(w4) && Inv(w5)
    requires 1 in w2.caches && FreeId(w2, id1) && FreeAddress(w2, 1, a1)
    requires NewArena(w2, 1, ChunkArena, id1, a1) == Done(w3, 1)
    requires 2 in w3.caches && FreeFor(w3, 2, 1, b) && Resolve(w3, 2, 1, b) == Done(w4, b)
    requires 1 in w4.caches && FreeFor(w4, 1, 1, b) && FreeArena(w4, 1, 1, true, b) == Done(w5, 0)
    requires 2 in w5.caches && FreeId(w5, id2) && FreeAddress(w5, 2, a2)
    requires NewArena(w5, 2, ChunkArena, id2, a2).Done? && w == NewArena(w5, 2, ChunkArena, id2, a2).w
    ensures Reaches(Start(id), steps, w)
  {
    hide Inv, Core, Resolve, NewArena, FreeArena, Join, FreshAddresses, Start, FreeId, FreeAddress, FreeFor;
    InvFormed(w1);
    InvFormed(w2);
    InvFormed(w3);
    InvFormed(w4);
    InvFormed(w5);
    InvFormed(Start(id));
    steps := [];
    Extend(w5, New(2, ChunkArena, id2, a2), steps, w);
    steps := [New(2, ChunkArena, id2, a2)] + steps;
    Extend(w4, Free(1, 1, true, b), steps, w);
    steps := [Free(1, 1, true, b)] + steps;
    Extend(w3, Use(2, 1, b), steps, w);
    steps := [Use(2, 1, b)] + steps;
    Extend(w2, New(1, ChunkArena, id1, a1), steps, w);
    steps := [New(1, ChunkArena, id1, a1)] + steps;
    Extend(w1, Init(2, addrs), steps, w);
    steps := [Init(2, addrs)] + steps;
    Extend(Start(id), Init(1, addrs), steps, w);
    steps := [Init(1, addrs)] + steps;
  }

  /** The step overwrites an entry that has this address. */
  ghost predicate Forgets(w: World, s: Step, p: int, a: int)
    requires WellFormed(w)
  {
    && s.New? && s.p == p && p in w.caches && FirstEmpty(w.table, 1) < ARENAS
    && w.caches[p][FirstEmpty(w.table, 1)] != NO_ENTRY && w.caches[p][FirstEmpty(w.table, 1)].addr == a
  }

  /** In any step a mapping becomes lost only if the step makes an arena, in the same process, at an index
      whose entry was filled, and then exactly the mapping of that entry. No step gives one back. */
  lemma LostForGood(w: World, s: Step, p: int, a: int)
    requires Inv(w) && Possible(w, s) && Apply(w, s).Done?
    ensures Lost(w, p, a) ==> Lost(Apply(w, s).w, p, a)
    ensures Lost(Apply(w, s).w, p, a) <==> Lost(w, p, a) || Forgets(w, s, p, a)
  {
    InvFormed(w);
    hide Inv, Core, Resolve, NewArena, FreeArena, Join, Lost, Dropped;
    match s
    case Init(q, addrs) => JoinKeeps(w, q, addrs);
    case New(q, kind, id, addr) =>
      if q == p && FirstEmpty(w.table, 1) < ARENAS {
        NewArenaLoses(w, p, kind, id, addr, a);
      } else {
        OthersLost(w, q, kind, id, addr, p, a);
      }
    case Use(q, index, addr) => ResolveMaps(w, q, index, addr);
    case Free(q, index, last, addr) =>
      FreeArenaExact(w, q, index, last, addr);
      if index < ARENAS { ResolveMaps(w, q, index, addr); }
  }

  lemma OthersLost(w: World, q: int, kind: ArenaKind, id: int, addr: int, p: int, a: int)
    requires Inv(w) && q in w.caches && (q != p || FirstEmpty(w.table, 1) == ARENAS)
    ensures NewArena(w, q, kind, id, addr).Done?
    ensures Lost(NewArena(w, q, kind, id, addr).w, p, a) <==> Lost(w, p, a)
  {
    if p in w.caches { NewArenaOthers(w, q, kind, id, addr, p); }
  }

  // ----- the steps, in place -----

  /** All memory the steps touch: the shared table, every process's local cache, the kernel. */
  class Machine {
    var table: seq<Slot>
    var caches: map<int, seq<Entry>>
    var kernel: map<int, int>
    var attached: map<int, map<int, int>>
    var made: int

    function View(): World
      reads this
    {
      World(table, caches, kernel, attached, made)
    }

    /** The machine after the segment of the context has been made. */
    constructor (id: int)
      requires id > 0
      ensures View() == Start(id) && Inv(View())
    {
      table := [Slot(ContextArena, id, 0, 0)] + seq(ARENAS - 1, i => NO_ARENA);
      caches, kernel, attached, made := map[], map[id := 0], map[], 1;
      new;
      StartHolds(id);
    }

    /** set_arena_addr */
    method SetArenaAddr(p: int, index: nat, addr: int, shmid: int)
      requires p in caches && index < |caches[p]|
      modifies this`caches
      ensures View() == SetEntry(old(View()), p, index, Entry(addr, shmid))
    {
      caches := caches[p := caches[p][index := Entry(addr, shmid)]];
    }

    /** shm_mmap of an existing segment */
    method Mmap(p: int, shmid: int, addr: int) returns (base: int)
      requires p in attached
      modifies this`attached
      ensures (View(), base) == Attach(old(View()), p, shmid, addr)
    {
      base := NOWHERE;
      if shmid in kernel {
        attached := attached[p := attached[p][addr := kernel[shmid]]];
        base := addr;
      }
    }

    /** shm_munmap */
    method Munmap(p: int, addr: int)
      requires p in attached
      modifies this`attached, this`kernel
      ensures View() == Detach(old(View()), p, addr)
    {
      attached := attached[p := attached[p] - {addr}];
      kernel := map id | id in kernel && (kernel[id] == 0 || Mapped(attached, kernel[id])) :: kernel[id];
    }

    /** get_or_update_arena_addr. Not ok means that one of its assertions fails. */
    method GetOrUpdateArenaAddr(p: int, index: nat, addr: int) returns (ok: bool, base: int)
      requires Inv(View()) && p in caches && index < ARENAS && FreeFor(View(), p, index, addr)
      modifies this
      ensures ok && Done(View(), base) == Resolve(old(View()), p, index, addr)
      ensures Inv(View()) && (base != NOWHERE <==> ArenaValid(View(), index))
      ensures base != NOWHERE ==> base in attached[p] && attached[p][base] == table[index].segment
    {
      hide Inv, Mapped, SlotHolds, EntryHolds;
      ResolveExact(View(), p, index, addr);
      InvFormed(View());
      ok := true;
      var e := caches[p][index];
      if e.shmid != table[index].shmid {
        if e.shmid != 0 {
          if e.addr == NOWHERE {
            ok := false;
            return;
          }
          Munmap(p, e.addr);
          SetArenaAddr(p, index, NOWHERE, 0);
        }
        if ArenaValid(View(), index) {
          if table[index].kind == ContextArena {
            ok := false;
            return;
          }
          var a := Mmap(p, table[index].shmid, addr);
          SetArenaAddr(p, index, a, table[index].shmid);
        }
      }
      base := caches[p][index].addr;
    }

    /** new_arena: the index, or 0 if the table is full. The kernel's answers are `shmid` and `addr`. */
    method CreateArena(p: int, kind: ArenaKind, shmid: int, addr: int) returns (index: nat)
      requires Inv(View()) && p in caches && FreeId(View(), shmid) && FreeAddress(View(), p, addr)
      requires kind == ChunkArena || kind == LargeArena
      modifies this
      ensures Done(View(), index) == NewArena(old(View()), p, kind, shmid, addr)
      ensures Inv(View()) && (index == 0 <==> forall i :: 0 <= i < ARENAS ==> ArenaValid(old(View()), i))
    {
      hide Inv;
      NewArenaKeeps(View(), p, kind, shmid, addr);
      NewArenaInv(View(), p, kind, shmid, addr);
      InvFormed(View());
      index := 1;
      while index < ARENAS && table[index].kind != EmptyArena
        invariant 1 <= index <= ARENAS && FirstEmpty(table, 1) == FirstEmpty(table, index)
      {
        index := index + 1;
      }
      if index == ARENAS {
        return 0;
      }
      kernel, attached := kernel[shmid := made], attached[p := attached[p][addr := made]];
      table := table[index := Slot(kind, shmid, made, p)];
      made := made + 1;
      SetArenaAddr(p, index, addr, shmid);
    }

    /** delete_arena. Not ok means that its assertion fails. */
    method DestroyArena(p: int, index: nat) returns (ok: bool)
      requires Inv(View()) && p in caches && 0 < index < ARENAS
      modifies this
      ensures (if ok then Done(View(), 0) else Aborted) == DeleteArena(old(View()), p, index)
      ensures Inv(View()) && (ok <==> old(caches)[p][index].addr != NOWHERE)
      ensures ok ==> p in attached && old(caches)[p][index].addr !in attached[p]
      ensures ok ==> ArenaGone(old(View()), View(), p, index) && table[index] == NO_ARENA
    {
      hide Inv, Reap;
      DeleteArenaKeeps(View(), p, index);
      InvFormed(View());
      var addr := caches[p][index].addr;
      if addr == NOWHERE {
        return false;
      }
      table := table[index := NO_ARENA];
      SetArenaAddr(p, index, NOWHERE, 0);
      Munmap(p, addr);
      ok := true;
    }

    /** shm_init in process `p`. */
    method ShmInit(p: int, addrs: seq<int>)
      requires Inv(View()) && p !in caches && FreshAddresses(addrs)
      modifies this
      ensures View() == Join(old(View()), p, addrs) && Inv(View())
    {
      hide Inv, MapAll;
      ghost var w := View();
      JoinKeeps(w, p, addrs);
      InvFormed(w);
      caches := caches[p := seq(ARENAS, i => NO_ENTRY)];
      attached := attached[p := map[]];
      var i := 0;
      while i < ARENAS
        invariant 0 <= i <= ARENAS && WellFormed(View()) && p in caches
        invariant MapAll(View(), p, i, addrs) == Join(w, p, addrs)
      {
        MapAllStep(View(), p, i, addrs);
        if i == 0 || ArenaValid(View(), i) {
          var base := Mmap(p, table[i].shmid, addrs[i]);
          SetArenaAddr(p, i, base, table[i].shmid);
        }
        i := i + 1;
      }
      MapAllStep(View(), p, i, addrs);
    }
  }

  lemma InvFormed(w: World)
    requires Inv(w)
    ensures WellFormed(w) && forall p :: p in w.caches ==> p in w.attached
  {
  }

  lemma MapAllStep(w: World, p: int, i: nat, addrs: seq<int>)
    requires WellFormed(w) && p in w.caches && i <= ARENAS == |addrs|
    ensures MapAll(w, p, i, addrs) == if i < ARENAS then MapAll(MapOne(w, p, i, addrs[i]), p, i + 1, addrs) else w
  {
  }
}
