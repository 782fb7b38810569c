/**
  The abstract `JodaClock`: the zone mapping between java.time and Joda-Time, the
  readings every Joda clock derives from its own `now()` and `getDateTimeZone()`, the
  `using` factory and the `Delegating` adapter over a java.time clock.
 */
module JodaClock {
  import opened Time

  /** Java's `/` on integers, which truncates toward zero. */
  function JavaDiv(a: int, b: int): (q: int)
    requires b > 0
    ensures a >= 0 ==> 0 <= q && q * b <= a < q * b + b
    ensures a < 0 ==> q <= 0 && q * b - b < a <= q * b
  {
    if a >= 0 then a / b else -((-a) / b)
  }

  /** `toDateTimeZone`: UTC to Joda's UTC, an offset of s seconds to the fixed zone
      of s * 1000 milliseconds, any other zone to the Joda zone of the same id. */
  function ToDateTimeZone(zone: ZoneId): (r: DateTimeZone)
    requires ValidZoneId(zone)
    ensures ValidDateTimeZone(r)
    ensures r.Fixed? <==> zone.Offset?
    ensures zone == UTC ==> r == JodaUTC
  {
    if zone == UTC then JodaUTC
    else if zone.Offset? then Fixed(zone.totalSeconds * MillisPerSecond)
    else Named(zone.id)
  }

  /** `ZoneOffset.ofTotalSeconds`: rejects offsets beyond eighteen hours. */
  function OfTotalSeconds(seconds: int): (r: Result<ZoneId>)
    ensures r.Ok? <==> -MaxOffsetSeconds <= seconds <= MaxOffsetSeconds
    ensures r.Ok? ==> r.value == Offset(seconds) && ValidZoneId(r.value)
    ensures r.Err? ==> r.failure == DateTimeFailure
  {
    if seconds < -MaxOffsetSeconds || MaxOffsetSeconds < seconds then Err(DateTimeFailure)
    else Ok(Offset(seconds))
  }

  /** `toZoneId`: Joda's UTC to UTC, a fixed zone to the offset of its whole seconds
      (Java's truncating division, so sub-second parts are dropped toward zero), any
      other zone to the region of the same id. */
  function ToZoneId(zone: DateTimeZone): (r: Result<ZoneId>)
    ensures r.Ok? ==> ValidZoneId(r.value)
    ensures r.Ok? ==> (r.value.Offset? <==> zone.Fixed?)
    ensures zone.Named? ==> r == Ok(Region(zone.id))
    ensures zone.Fixed? ==>
              (r.Ok? <==> -(MaxOffsetSeconds + 1) * MillisPerSecond < zone.offsetMillis < (MaxOffsetSeconds + 1) * MillisPerSecond)
    ensures r.Ok? && zone.Fixed? ==> r.value.totalSeconds == JavaDiv(zone.offsetMillis, MillisPerSecond)
  {
    if zone == JodaUTC then Ok(UTC)
    else if zone.Fixed? then OfTotalSeconds(JavaDiv(zone.offsetMillis, MillisPerSecond))
    else Ok(Region(zone.id))
  }

  /** Every java.time zone survives the trip to Joda-Time and back. */
  lemma {:induction false} ZoneIdRoundTrip(zone: ZoneId)
    requires ValidZoneId(zone)
    ensures ToZoneId(ToDateTimeZone(zone)) == Ok(zone)
  {
    if zone.Offset? && zone != UTC {
      var s := zone.totalSeconds;
      JavaDivExact(s);
      assert JavaDiv(s * MillisPerSecond, MillisPerSecond) == s;
    }
  }

  /** Dividing a whole number of seconds' worth of milliseconds gives the seconds back. */
  lemma JavaDivExact(s: int)
    ensures JavaDiv(s * MillisPerSecond, MillisPerSecond) == s
  {
  }

  /** A Joda zone comes back from java.time unchanged exactly when it is a named zone
      or its offset is a whole number of seconds. */
  lemma {:induction false} DateTimeZoneRoundTrip(zone: DateTimeZone)
    requires ToZoneId(zone).Ok?
    ensures ToDateTimeZone(ToZoneId(zone).value) == zone
            <==> (zone.Named? || zone.offsetMillis % MillisPerSecond == 0)
  {
    if zone.Fixed? {
      var m := zone.offsetMillis;
      var s := JavaDiv(m, MillisPerSecond);
      assert ToZoneId(zone).value == Offset(s);
      assert ToDateTimeZone(Offset(s)) == Fixed(s * MillisPerSecond);
      if m % MillisPerSecond == 0 {
        var k := m / MillisPerSecond;
        assert m == k * MillisPerSecond;
        JavaDivExact(k);
      } else {
        assert s * MillisPerSecond != m;
      }
    }
  }

  /** The truncation is toward zero, not toward negative infinity: minus one and a
      half seconds maps to minus one second, and comes back as minus one second. */
  lemma SubSecondOffsetTruncates()
    ensures ToZoneId(Fixed(-1500)) == Ok(Offset(-1))
    ensures ToDateTimeZone(Offset(-1)) == Fixed(-1000)
  {
  }

  /** What a Joda clock answers at one moment: `now()`, `millis()` and
      `getDateTimeZone()`. */
  datatype JodaReading = JodaReading(now: JodaInstant, millis: int, zone: DateTimeZone)

  /** `millis()` agrees with `now()`, as the inherited `millis()` does. */
  predicate Consistent(r: JodaReading) {
    r.millis == r.now
  }

  /** The inherited `millis()`: the millisecond count of `now()`. */
  function DefaultReading(now: JodaInstant, zone: DateTimeZone): (r: JodaReading)
    ensures Consistent(r) && r.now == now && r.zone == zone
  {
    JodaReading(now, now, zone)
  }

  /** `instant()`: the java.time instant of the clock's `millis()`. */
  function InstantOf(r: JodaReading): (i: Instant)
    ensures EpochMilli(i) == r.millis
    ensures i % NanosPerMilli == 0
  {
    r.millis * NanosPerMilli
  }

  /** When `millis()` is not overridden inconsistently, `now()`, `millis()` and
      `instant()` name the same millisecond. */
  lemma ReadingsAgree(r: JodaReading)
    requires Consistent(r)
    ensures EpochMilli(InstantOf(r)) == r.millis == r.now
  {
  }

  /** `getZone()`, which no subclass may override: the clock's Joda zone converted to
      java.time. A named zone becomes the region of the same id; a fixed zone becomes
      the offset of its whole seconds, truncated toward zero, and is refused with
      `DateTimeException` when that lies beyond eighteen hours. */
  function GetZone(r: JodaReading): (z: Result<ZoneId>)
    ensures z.Ok? <==> r.zone.Named? || -(MaxOffsetSeconds + 1) * MillisPerSecond < r.zone.offsetMillis < (MaxOffsetSeconds + 1) * MillisPerSecond
    ensures z.Err? ==> z.failure == DateTimeFailure
    ensures r.zone == JodaUTC ==> z == Ok(UTC)
    ensures r.zone.Named? ==> z == Ok(Region(r.zone.id))
    ensures z.Ok? && r.zone.Fixed? ==> z.value == Offset(JavaDiv(r.zone.offsetMillis, MillisPerSecond))
  {
    ToZoneId(r.zone)
  }

  /** A clock whose Joda zone came from a java.time zone reports that very zone from
      `getZone()`. */
  lemma {:induction false} GetZoneOfConvertedZone(now: JodaInstant, millis: int, zone: ZoneId)
    requires ValidZoneId(zone)
    ensures GetZone(JodaReading(now, millis, ToDateTimeZone(zone))) == Ok(zone)
  {
    ZoneIdRoundTrip(zone);
  }

  /** `withZone(ZoneId)`: the subclass's `withZone(DateTimeZone)` of the converted zone. */
  function WithZoneId<C>(withZone: DateTimeZone -> C, zone: ZoneId): C
    requires ValidZoneId(zone)
  {
    withZone(ToDateTimeZone(zone))
  }

  /** `withUTC()`: the subclass's `withZone(DateTimeZone)` of Joda's UTC. */
  function WithUTC<C>(withZone: DateTimeZone -> C): C {
    withZone(JodaUTC)
  }

  /** `withUTC()` and `withZone(ZoneOffset.UTC)` reach the same subclass call. */
  lemma WithUTCIsWithZoneIdUTC<C>(withZone: DateTimeZone -> C)
    ensures WithUTC(withZone) == WithZoneId(withZone, UTC)
  {
  }

  /** Applying a zone id to a clock is applying the Joda zone it converts to: an offset
      of s seconds becomes the fixed zone of s * 1000 milliseconds. */
  lemma WithZoneIdOfOffset<C>(withZone: DateTimeZone -> C, seconds: int)
    requires -MaxOffsetSeconds <= seconds <= MaxOffsetSeconds
    ensures WithZoneId(withZone, Offset(seconds)) == withZone(Fixed(seconds * 1000))
  {
  }

  /** What the java.time clocks of the program answer at the moment of a call:
      `millis()`, `getZone()`, and the clock their `withZone` hands back. */
  datatype JdkClocks = JdkClocks(
    millis: ClockRef -> int,
    zone: ClockRef -> ZoneId,
    withZone: (ClockRef, ZoneId) -> ClockRef)

  /** The adapter `using` builds around a java.time clock. */
  datatype Delegating = Delegating(clock: ClockRef)

  /** The adapter's constructor rejects a null clock. */
  function NewDelegating(clock: Option<ClockRef>): (r: Result<Delegating>)
    ensures r.Ok? <==> clock.Some?
    ensures r.Ok? ==> r.value.clock == clock.value
    ensures r.Err? ==> r.failure == NullPointer
  {
    match clock
    case None => Err(NullPointer)
    case Some(c) => Ok(Delegating(c))
  }

  /** The adapter's `now()`, `millis()` and `getDateTimeZone()`: the wrapped clock's
      millis, twice, and its zone converted to Joda-Time, so that the inherited
      `getZone()` hands back the wrapped clock's own zone. */
  function DelegatingReading(d: Delegating, w: JdkClocks): (r: JodaReading)
    requires ValidZoneId(w.zone(d.clock))
    ensures Consistent(r)
    ensures r.millis == w.millis(d.clock)
    ensures GetZone(r) == Ok(w.zone(d.clock))
  {
    ZoneIdRoundTrip(w.zone(d.clock));
    JodaReading(w.millis(d.clock), w.millis(d.clock), ToDateTimeZone(w.zone(d.clock)))
  }

  /** The adapter's `withZone(DateTimeZone)`: converts the zone, asks the wrapped clock,
      and hands back itself when the wrapped clock handed back itself. */
  function DelegatingWithZone(d: Delegating, zone: DateTimeZone, w: JdkClocks): (r: Result<Derived<Delegating>>)
    ensures r.Ok? <==> ToZoneId(zone).Ok?
    ensures r.Err? ==> r.failure == DateTimeFailure
    ensures r.Ok? ==> (r.value.Same? <==> w.withZone(d.clock, ToZoneId(zone).value) == d.clock)
    ensures r.Ok? && r.value.Created? ==> r.value.clock == Delegating(w.withZone(d.clock, ToZoneId(zone).value))
  {
    match ToZoneId(zone)
    case Err(f) => Err(f)
    case Ok(zoneId) =>
      var newClock := w.withZone(d.clock, zoneId);
      if newClock == d.clock then Ok(Same) else Ok(Created(Delegating(newClock)))
  }

  /** When the wrapped clock hands back itself for its own zone (as java.time's system
      and fixed clocks do), the adapter hands back itself for its own zone. */
  lemma {:induction false} DelegatingReapplyOwnZone(d: Delegating, w: JdkClocks)
    requires ValidZoneId(w.zone(d.clock))
    requires w.withZone(d.clock, w.zone(d.clock)) == d.clock
    ensures DelegatingWithZone(d, DelegatingReading(d, w).zone, w) == Ok(Same)
  {
    ZoneIdRoundTrip(w.zone(d.clock));
  }

  /** A Joda clock object: the adapter, or an instance of any other subclass. */
  datatype JodaClockObject = Adapter(adapter: Delegating) | Subclass(ref: ClockRef)

  /** A java.time clock argument: one that already is a Joda clock, or a plain one. */
  datatype JavaClock = JodaClockArg(joda: JodaClockObject) | PlainClock(ref: ClockRef)

  /** `using`: a Joda clock is returned as it is, anything else is wrapped in the
      adapter (whose constructor rejects null). */
  function Using(clock: Option<JavaClock>): (r: Result<JodaClockObject>)
    ensures r.Ok? <==> clock.Some?
    ensures r.Err? ==> r.failure == NullPointer
    ensures r.Ok? && clock.value.JodaClockArg? ==> r.value == clock.value.joda
    ensures r.Ok? && clock.value.PlainClock? ==> r.value == Adapter(Delegating(clock.value.ref))
  {
    match clock
    case None => match NewDelegating(None) { case Ok(d) => Ok(Adapter(d)) case Err(f) => Err(f) }
    case Some(JodaClockArg(j)) => Ok(j)
    case Some(PlainClock(c)) => Ok(Adapter(Delegating(c)))
  }

  /** `using` is idempotent: applied to its own answer it returns that same object. */
  lemma UsingIdempotent(clock: Option<JavaClock>)
    requires Using(clock).Ok?
    ensures Using(Some(JodaClockArg(Using(clock).value))) == Using(clock)
  {
  }
}
