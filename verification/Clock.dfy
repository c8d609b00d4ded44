/** Time as the source stores it. */
module Clock {
  /** Microseconds since the epoch, the resolution of the source's timestamps. */
  type Time = int

  const SECOND: Time := 1_000_000
  const MINUTE: Time := 60_000_000
  const HOUR: Time := 3_600_000_000
  const DAY: Time := 86_400_000_000
}
