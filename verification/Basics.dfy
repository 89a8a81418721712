/** Constants of src/shm_type.h that several layers share, and powers of two. */
module Basics {
  /** The null position. */
  const SHM_NULL: int := 0
  const PAGE_SIZE: int := 4096
  /** SHM_CHUNK_UNIT_SIZE */
  const CHUNK_SIZE: int := 0x100000
  /** CHUNK_MEDIUM_UNITS, the pages of a chunk. */
  const UNITS: int := 256
  /** Positions of one arena: index << 32 and up. */
  const ARENA_SPAN: int := 0x1_0000_0000

  function Pow2(n: nat): nat {
    if n == 0 then 1 else 2 * Pow2(n - 1)
  }

  lemma {:induction false} Pow2Sum(a: nat, b: nat)
    ensures Pow2(a + b) == Pow2(a) * Pow2(b) && Pow2(a) <= Pow2(a + b)
  {
    if b == 0 {
    } else {
      Pow2Sum(a, b - 1);
      assert Pow2(a + b) == 2 * Pow2(a + (b - 1));
    }
  }
}
