/**
  Values shared by every clock of the library: instants and durations on the two
  time scales, the two zone vocabularies (java.time and Joda-Time), the failures the
  clocks report by throwing, and the two shapes a `withZone` answer can take.
 */
module Time {

  /** The exceptions the clocks throw, as values. */
  datatype Failure =
    | IllegalArgument   // IllegalArgumentException
    | IllegalState      // IllegalStateException
    | NullPointer       // NullPointerException, from requireNonNull or a null dereference
    | DateTimeFailure   // java.time.DateTimeException (an offset out of range)
    | UnsupportedUnit   // UnsupportedTemporalTypeException (a unit of estimated length)

  /** The outcome of a call that may throw. */
  datatype Result<+T> = Ok(value: T) | Err(failure: Failure)

  /** A reference argument that may be null. */
  datatype Option<+T> = None | Some(value: T)

  /** The state a mutable clock is left in by a call: the new state when the call
      succeeded, the old one, untouched, when it threw. */
  function After<S>(s: S, r: Result<S>): (t: S)
    ensures r.Err? ==> t == s
    ensures r.Ok? ==> t == r.value
  {
    match r
    case Ok(v) => v
    case Err(_) => s
  }

  const MillisPerSecond: int := 1000
  const NanosPerMilli: int := 1_000_000
  const NanosPerSecond: int := 1_000_000_000

  /** A Joda-Time instant: milliseconds since the epoch. */
  type JodaInstant = int
  /** A Joda-Time duration: a signed number of milliseconds. */
  type JodaDuration = int
  /** A java.time instant: nanoseconds since the epoch. */
  type Instant = int
  /** A java.time duration: a signed number of nanoseconds. */
  type Duration = int

  /** The millisecond a java.time instant falls in (`Instant.toEpochMilli`, which
      rounds toward negative infinity, as Dafny's `/` does for a positive divisor). */
  function EpochMilli(i: Instant): int {
    i / NanosPerMilli
  }

  /** A java.time zone: a fixed offset (`ZoneOffset`) or a region id (`ZoneRegion`).
      `ZoneOffset.UTC` is the offset of zero seconds. */
  datatype ZoneId = Offset(totalSeconds: int) | Region(id: string)

  const UTC: ZoneId := Offset(0)

  /** `ZoneOffset` only admits offsets within eighteen hours of UTC. */
  const MaxOffsetSeconds: int := 18 * 3600

  predicate ValidZoneId(z: ZoneId) {
    z.Offset? ==> -MaxOffsetSeconds <= z.totalSeconds <= MaxOffsetSeconds
  }

  /** A Joda-Time zone: a fixed zone of some milliseconds offset, or a zone looked up
      by id whose offset varies. Joda's `DateTimeZone.UTC` is the fixed zone of offset
      zero (`forOffsetMillis(0)` returns that very object). */
  datatype DateTimeZone = Fixed(offsetMillis: int) | Named(id: string)

  const JodaUTC: DateTimeZone := Fixed(0)

  /** Joda fixed zones admit offsets strictly within a day of UTC. */
  const MaxOffsetMillis: int := 24 * 3600 * 1000 - 1

  predicate ValidDateTimeZone(z: DateTimeZone) {
    z.Fixed? ==> -MaxOffsetMillis <= z.offsetMillis <= MaxOffsetMillis
  }

  /** What `withZone` hands back for a clock that is a plain value: the receiver
      itself (the same object) or a newly constructed clock. */
  datatype Derived<+C> = Same | Created(clock: C)

  function Resolve<C>(self: C, d: Derived<C>): (c: C)
    ensures d.Same? ==> c == self
    ensures d.Created? ==> c == d.clock
  {
    match d
    case Same => self
    case Created(c) => c
  }

  /** What `withZone` hands back for a mutable clock: the clock itself, or a derived
      view that keeps a reference to it and reports its own zone. A view holds no time
      of its own, so it is always read against the parent's current state. */
  datatype Handle<+Z> = TheClock | ZoneView(zone: Z)

  /** A reference to some other clock object, identified by an opaque number. */
  type ClockRef = nat
}
