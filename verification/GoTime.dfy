/** Go's time arithmetic: instants are nanoseconds, a time.Duration is an int64 that wraps around. */
module GoTime {

  const SECOND: int := 1_000_000_000
  const MAX_INT64: int := 0x7fff_ffff_ffff_ffff
  const MIN_INT64: int := -0x8000_0000_0000_0000
  const TWO_64: int := 0x1_0000_0000_0000_0000

  /** The zero time.Time, which a failed time.Parse returns: January 1, year 1, UTC. */
  const ZERO_TIME: int := -62_135_596_800 * SECOND

  /** An annotation or status string that should hold an RFC 3339 timestamp. */
  datatype Stamp = At(seconds: int) | Unparsable

  function Wrap64(x: int): (r: int)
    ensures MIN_INT64 <= r <= MAX_INT64
    ensures MIN_INT64 <= x <= MAX_INT64 ==> r == x
    ensures (x - r) % TWO_64 == 0
  {
    (x - MIN_INT64) % TWO_64 + MIN_INT64
  }

  /** time.Time.Sub, which saturates. */
  function Sub(t: int, u: int): (r: int)
    ensures MIN_INT64 <= r <= MAX_INT64
    ensures MIN_INT64 <= t - u <= MAX_INT64 ==> r == t - u
  {
    if t - u > MAX_INT64 then MAX_INT64 else if t - u < MIN_INT64 then MIN_INT64 else t - u
  }

  /** Format(time.RFC3339) keeps whole seconds only. */
  function Format(t: int): (s: Stamp)
    ensures s.At? && s.seconds * SECOND <= t < s.seconds * SECOND + SECOND
  {
    At(t / SECOND)
  }

  function Parse(s: Stamp): int
  {
    match s
    case At(seconds) => seconds * SECOND
    case Unparsable => ZERO_TIME
  }
}
