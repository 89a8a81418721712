/** The heap behind the table of arenas and the mappings of the processes together: every block that is
    held can be reached by every process, and each step of the heap's table is one of the protocol's. */
module HeapMappings {
  import opened Basics
  import opened MappingCache
  import opened ArenaTable
  import opened WholeHeap
  import opened WholeFree

  /** Both sides see the same kinds of arenas in the same rows. */
  ghost predicate SameRows(w: World, t: seq<Arena>) {
    |w.table| == |t| && forall i :: 0 <= i < |t| ==> w.table[i].kind == t[i].kind
  }

  ghost predicate Joint(w: World, h: Whole) {
    Inv(w) && WholeHolds(h) && SameRows(w, h.table)
  }

  /** Any process gets an address for any block that is held, whoever allocated it, in the segment the
      table names now; once it has, a free by this process goes through. */
  lemma HeldReached(w: World, h: Whole, p: int, index: nat, offset: nat, len: int, addr: int)
    requires Joint(w, h) && offset < ARENA_SPAN && LiveAt(h, Pos(index, offset), len) && FreeFor(w, p, index, addr)
    ensures index < ARENAS
    ensures var r := Resolve(w, p, index, addr);
      && r.Done? && Joint(r.w, h) && p in r.w.caches
      && r.result != NOWHERE && r.result in r.w.attached[p] && r.w.attached[p][r.result] == w.table[index].segment
      && forall last, other :: FreeFor(r.w, p, index, other) ==> FreeArena(r.w, p, index, last, other).Done?
  {
    HeldIndex(h, index, offset, len);
    hide LiveAt, WholeHolds, Inv, Resolve, FreeArena;
    WellFormedInv(w);
    ResolveExact(w, p, index, addr);
    var r := Resolve(w, p, index, addr);
    forall last, other | FreeFor(r.w, p, index, other) ensures FreeArena(r.w, p, index, last, other).Done? {
      FreeArenaExact(r.w, p, index, last, other);
    }
  }

  lemma WellFormedInv(w: World)
    requires Inv(w)
    ensures WellFormed(w)
  {
  }

  // ----- the steps of the table on both sides -----

  lemma {:induction false} SameFirst(w: World, t: seq<Arena>, i: nat)
    requires SameRows(w, t) && 1 <= i <= |t|
    ensures FirstEmpty(w.table, i) == FirstUnused(t, i)
    decreases |t| - i
  {
    if i < |t| { SameFirst(w, t, i + 1); }
  }

  /** new_arena takes the same row on both sides. */
  lemma NewArenaJoint(w: World, t: seq<Arena>, p: int, kind: ArenaKind, size: int, id: int, addr: int)
    requires Inv(w) && SameRows(w, t) && |t| == ARENAS && p in w.caches
    ensures var r := NewArena(w, p, kind, id, addr);
      && r.Done? && (r.result == 0 <==> FirstUnused(t, 1) == ARENAS)
      && (r.result != 0 ==> r.result == FirstUnused(t, 1))
      && SameRows(r.w, if r.result == 0 then t else t[r.result := FreshArena(kind, r.result, size)])
  {
    SameFirst(w, t, 1);
  }
}
