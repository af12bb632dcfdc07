/** Signed 64-bit integers, and durations as nanoseconds counted in them. */
module Int64s {

  const MAX_INT64: int := 0x7FFF_FFFF_FFFF_FFFF
  const MIN_INT64: int := -0x8000_0000_0000_0000

  newtype Int64 = x: int | MIN_INT64 <= x <= MAX_INT64

  const SECOND: nat := 1_000_000_000
  const MINUTE: nat := 60 * SECOND
  const HOUR: nat := 60 * MINUTE
  const DAY: nat := 24 * HOUR
  const WEEK: nat := 7 * DAY

  /** The value left by a multiplication whose exact product is x: two's complement, 64 bits kept. */
  function Wrap64(x: int): int {
    (x - MIN_INT64) % 0x1_0000_0000_0000_0000 + MIN_INT64
  }
}
