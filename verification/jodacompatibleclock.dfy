/**
  `JodaCompatibleClock`: a java.time clock that reads Joda-Time's global millis
  source, so that it agrees with Joda types built by their default constructors. It
  comes in two flavours: one reporting the process default zone, and one reporting a
  zone given by `withZone`.
 */
module JodaCompatibleClock {
  import opened Time

  datatype JodaCompatibleClock = DefaultZone | ZoneOverridden(zone: ZoneId)

  /** `millis()`: the value of Joda-Time's global millis source at the time of the call
      (`DateTimeUtils.currentTimeMillis()`), whatever the zone. */
  function ReadMillis(c: JodaCompatibleClock, globalMillis: int): int {
    globalMillis
  }

  /** `instant()`: the java.time instant of the same global millis value, so it always
      names the millisecond `millis()` reports. */
  function ReadInstant(c: JodaCompatibleClock, globalMillis: int): (i: Instant)
    ensures EpochMilli(i) == ReadMillis(c, globalMillis)
    ensures i % NanosPerMilli == 0
  {
    globalMillis * NanosPerMilli
  }

  /** `getZone()`: the override zone, or the zone the process default resolves to. */
  function GetZone(c: JodaCompatibleClock, defaultZone: ZoneId): (z: ZoneId)
    ensures c.ZoneOverridden? ==> z == c.zone
    ensures c.DefaultZone? ==> z == defaultZone
  {
    match c
    case DefaultZone => defaultZone
    case ZoneOverridden(zone) => zone
  }

  /** `withZone`: the default-zone clock always builds a new overridden clock, even for
      the default zone; an overridden clock hands back itself for its own zone and a new
      overridden clock for any other. */
  function WithZone(c: JodaCompatibleClock, zone: ZoneId): (r: Derived<JodaCompatibleClock>)
    ensures Resolve(c, r) == ZoneOverridden(zone)
    ensures r.Same? <==> c == ZoneOverridden(zone)
  {
    match c
    case DefaultZone => Created(ZoneOverridden(zone))
    case ZoneOverridden(z) => if zone == z then Same else Created(ZoneOverridden(zone))
  }

  /** Whatever clock `withZone` hands back reports the requested zone, and reads the
      same millis and instant as the clock it came from. */
  lemma WithZoneKeepsTime(c: JodaCompatibleClock, zone: ZoneId, globalMillis: int, defaultZone: ZoneId)
    ensures GetZone(Resolve(c, WithZone(c, zone)), defaultZone) == zone
    ensures ReadMillis(Resolve(c, WithZone(c, zone)), globalMillis) == ReadMillis(c, globalMillis)
    ensures ReadInstant(Resolve(c, WithZone(c, zone)), globalMillis) == ReadInstant(c, globalMillis)
  {
  }
}
