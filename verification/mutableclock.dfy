/**
  `MutableClock`: a standalone mutation interface for java.time clocks; no clock of
  the library implements it. Its helpers are defaults written over the one primitive
  `bump(TemporalAmount)`, given here as a function from a state and a nanosecond
  duration to the outcome of the call, so that any clock's own helpers can be compared
  with what these defaults would compute over its `bump`.
 */
module MutableClock {
  import opened Time

  /** The units of `java.time.temporal.ChronoUnit`, shortest first. */
  datatype TemporalUnit =
    | Nanos | Micros | Millis | Seconds | Minutes | Hours | HalfDays | Days
    | Weeks | Months | Years | Decades | Centuries | Millennia | Eras | Forever

  /** `ChronoUnit.isDurationEstimated`: days and every longer unit. */
  predicate IsDurationEstimated(u: TemporalUnit) {
    !(u.Nanos? || u.Micros? || u.Millis? || u.Seconds? || u.Minutes? || u.Hours? || u.HalfDays?)
  }

  /** The length in nanoseconds of each unit `Duration.of` accepts. */
  function UnitNanos(u: TemporalUnit): (n: nat)
    requires !IsDurationEstimated(u) || u.Days?
    ensures n > 0
  {
    match u
    case Nanos => 1
    case Micros => 1000
    case Millis => NanosPerMilli
    case Seconds => NanosPerSecond
    case Minutes => 60 * NanosPerSecond
    case Hours => 3600 * NanosPerSecond
    case HalfDays => 43200 * NanosPerSecond
    case Days => 86400 * NanosPerSecond
  }

  /** `Duration.of(amount, unit)`, which is `Duration.ZERO.plus(amount, unit)`: days
      are taken as 86400 seconds, any other unit of estimated length is refused (even
      for a zero amount), a zero amount is the zero duration, and the remaining units
      are scaled by their exact length. */
  function DurationOf(amount: int, unit: TemporalUnit): (r: Result<Duration>)
    ensures r.Ok? <==> !IsDurationEstimated(unit) || unit.Days?
    ensures r.Err? ==> r.failure == UnsupportedUnit
    ensures r.Ok? ==> r.value == amount * UnitNanos(unit)
  {
    if unit.Days? then Ok(amount * 86400 * NanosPerSecond)
    else if IsDurationEstimated(unit) then Err(UnsupportedUnit)
    else if amount == 0 then Ok(0)
    else match unit
      case Nanos => Ok(amount)
      case Micros => Ok(amount * 1000)
      case Millis => Ok(amount * NanosPerMilli)
      case Seconds => Ok(amount * NanosPerSecond)
      case Minutes => Ok(60 * amount * NanosPerSecond)
      case Hours => Ok(3600 * amount * NanosPerSecond)
      case HalfDays => Ok(43200 * amount * NanosPerSecond)
  }

  /** `bump(amount, unit)`: `bump(Duration.of(amount, unit))`. */
  function BumpBy<S>(bump: (S, Duration) -> Result<S>, s: S, amount: int, unit: TemporalUnit): Result<S> {
    match DurationOf(amount, unit)
    case Err(f) => Err(f)
    case Ok(d) => bump(s, d)
  }

  /** `bumpSeconds(secs)`: `bump(Duration.ofSeconds(secs))`. */
  function BumpSeconds<S>(bump: (S, Duration) -> Result<S>, s: S, secs: int): Result<S> {
    bump(s, secs * NanosPerSecond)
  }

  /** `bumpMillis(millis)`: `bump(Duration.ofMillis(millis))`. */
  function BumpMillis<S>(bump: (S, Duration) -> Result<S>, s: S, millis: int): Result<S> {
    bump(s, millis * NanosPerMilli)
  }

  /** `bump(n, SECONDS)` and `bump(n, MILLIS)` are `bumpSeconds(n)` and `bumpMillis(n)`,
      and `bumpSeconds(n)` is `bumpMillis(1000 * n)`. */
  lemma UnitHelpersAgree<S>(bump: (S, Duration) -> Result<S>, s: S, n: int)
    ensures BumpBy(bump, s, n, Seconds) == BumpSeconds(bump, s, n)
    ensures BumpBy(bump, s, n, Millis) == BumpMillis(bump, s, n)
    ensures BumpSeconds(bump, s, n) == BumpMillis(bump, s, 1000 * n)
  {
  }

  /** `bump(amount, unit)` adds no checks beyond the unit's: with an exact unit (or days)
      it is `bump` of the scaled duration, and with any other unit it fails with
      `UnsupportedUnit` before `bump` is reached, leaving the state as it was. */
  lemma BumpByAddsNoChecks<S>(bump: (S, Duration) -> Result<S>, s: S, amount: int, unit: TemporalUnit)
    ensures !IsDurationEstimated(unit) || unit.Days? ==> BumpBy(bump, s, amount, unit) == bump(s, amount * UnitNanos(unit))
    ensures IsDurationEstimated(unit) && !unit.Days? ==>
              BumpBy(bump, s, amount, unit) == Err(UnsupportedUnit) && After(s, BumpBy(bump, s, amount, unit)) == s
  {
  }
}
