// What several of the models share: bytes, intervals, powers of two, block-layer sizes and the
// error numbers of the host.
module Basics {
  type Byte = b: int | 0 <= b < 256

  /** BDRV_SECTOR_SIZE, in bytes, and BDRV_SECTORS_PER_DIRTY_CHUNK. */
  const SECTOR := 512
  const CHUNK := 2048

  const EIO := 5
  const EAGAIN := 11
  const EACCES := 13
  const EBUSY := 16
  const EINVAL := 22
  const ENOTSUP := 95
  const ENOMEDIUM := 123

  predicate Within(lo: nat, x: nat, hi: nat) { lo <= x < hi }

  function Range(lo: nat, hi: nat): (s: set<nat>)
    ensures forall x :: x in s <==> lo <= x < hi
  {
    set x | lo <= x < hi && Within(lo, x, hi)
  }

  function Power(n: nat): nat { if n == 0 then 1 else 2 * Power(n - 1) }
}
