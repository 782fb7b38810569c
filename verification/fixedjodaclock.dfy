/**
  `FixedJodaClock`: a Joda clock stuck at one instant, in one zone.
 */
module FixedJodaClock {
  import opened Time
  import JodaClock

  datatype FixedJodaClock = FixedJodaClock(instant: JodaInstant, timeZone: DateTimeZone)

  /** The constructor rejects a null instant or zone. */
  function New(instant: Option<JodaInstant>, timeZone: Option<DateTimeZone>): (r: Result<FixedJodaClock>)
    ensures r.Ok? <==> instant.Some? && timeZone.Some?
    ensures r.Err? ==> r.failure == NullPointer
    ensures r.Ok? ==> Now(r.value) == instant.value && GetDateTimeZone(r.value) == timeZone.value
  {
    match (instant, timeZone)
    case (Some(i), Some(z)) => Ok(FixedJodaClock(i, z))
    case _ => Err(NullPointer)
  }

  function Now(c: FixedJodaClock): JodaInstant {
    c.instant
  }

  function GetDateTimeZone(c: FixedJodaClock): DateTimeZone {
    c.timeZone
  }

  /** What the clock answers; `millis()` is inherited, so it agrees with `now()`. */
  function Reading(c: FixedJodaClock): (r: JodaClock.JodaReading)
    ensures JodaClock.Consistent(r)
    ensures r.now == Now(c) && r.zone == GetDateTimeZone(c)
  {
    JodaClock.DefaultReading(c.instant, c.timeZone)
  }

  /** `withZone`: the clock itself for its own zone, otherwise a new fixed clock at the
      same instant in the requested zone. */
  function WithZone(c: FixedJodaClock, zone: DateTimeZone): (r: Derived<FixedJodaClock>)
    ensures r.Same? <==> zone == c.timeZone
    ensures Now(Resolve(c, r)) == Now(c)
    ensures GetDateTimeZone(Resolve(c, r)) == zone
  {
    if c.timeZone == zone then Same
    else Created(FixedJodaClock(c.instant, zone))
  }

  /** A fixed clock keeps its instant through any chain of zone changes. */
  lemma {:induction false} WithZonesKeepInstant(c: FixedJodaClock, zones: seq<DateTimeZone>)
    ensures Now(ApplyZones(c, zones)) == Now(c)
    ensures |zones| > 0 ==> GetDateTimeZone(ApplyZones(c, zones)) == zones[|zones| - 1]
    decreases |zones|
  {
    if |zones| > 0 {
      var c' := Resolve(c, WithZone(c, zones[0]));
      WithZonesKeepInstant(c', zones[1..]);
      if |zones| > 1 {
        assert zones[1..][|zones[1..]| - 1] == zones[|zones| - 1];
      }
    }
  }

  /** The clock reached by applying `withZone` for each zone in turn. */
  function ApplyZones(c: FixedJodaClock, zones: seq<DateTimeZone>): FixedJodaClock
    decreases |zones|
  {
    if |zones| == 0 then c else ApplyZones(Resolve(c, WithZone(c, zones[0])), zones[1..])
  }
}
