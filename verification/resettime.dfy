/**
  `ResetTime`: the Joda clock behind the JUnit rule that freezes time. As a clock it
  holds one instant that only its caller moves forward, strictly when bumped; the
  installation of that clock as the process-wide time source is not part of this model.
 */
module ResetTime {
  import opened Time
  import JodaClock
  import MutableJodaClock

  datatype ResetTime = ResetTime(timeZone: DateTimeZone, instant: JodaInstant)

  /** The private constructor rejects a null instant or zone. */
  function New(timeToResetTo: Option<JodaInstant>, timeZone: Option<DateTimeZone>): (r: Result<ResetTime>)
    ensures r.Ok? <==> timeToResetTo.Some? && timeZone.Some?
    ensures r.Err? ==> r.failure == NullPointer
    ensures r.Ok? ==> Now(r.value) == timeToResetTo.value && GetDateTimeZone(r.value) == timeZone.value
  {
    match (timeToResetTo, timeZone)
    case (Some(i), Some(z)) => Ok(ResetTime(z, i))
    case _ => Err(NullPointer)
  }

  /** `to(instant)`: frozen at the instant, in the process default zone. */
  function To(instant: Option<JodaInstant>, defaultZone: DateTimeZone): (r: Result<ResetTime>)
    ensures r.Ok? <==> instant.Some?
    ensures r.Ok? ==> Now(r.value) == instant.value && GetDateTimeZone(r.value) == defaultZone
  {
    New(instant, Some(defaultZone))
  }

  /** `to(instant, zone)`. */
  function ToInZone(instant: Option<JodaInstant>, timeZone: Option<DateTimeZone>): (r: Result<ResetTime>)
    ensures r.Ok? <==> instant.Some? && timeZone.Some?
    ensures r.Ok? ==> Now(r.value) == instant.value && GetDateTimeZone(r.value) == timeZone.value
  {
    New(instant, timeZone)
  }

  /** A Joda `DateTime`: an instant together with its zone. */
  datatype DateTime = DateTime(millis: JodaInstant, zone: DateTimeZone)

  /** `to(dateTime)`: frozen at the date-time's instant, in its zone; a null date-time
      throws on the first use. */
  function ToDateTime(dateTime: Option<DateTime>): (r: Result<ResetTime>)
    ensures r.Ok? <==> dateTime.Some?
    ensures r.Err? ==> r.failure == NullPointer
    ensures r.Ok? ==> Now(r.value) == dateTime.value.millis && GetDateTimeZone(r.value) == dateTime.value.zone
  {
    match dateTime
    case None => Err(NullPointer)
    case Some(d) => New(Some(d.millis), Some(d.zone))
  }

  function Now(c: ResetTime): JodaInstant {
    c.instant
  }

  function GetDateTimeZone(c: ResetTime): DateTimeZone {
    c.timeZone
  }

  /** `bump`: a duration that is not positive, zero included, is refused; a positive one
      is added. */
  function Bump(c: ResetTime, duration: JodaDuration): (r: Result<ResetTime>)
    ensures r.Ok? <==> duration > 0
    ensures r.Err? ==> r.failure == IllegalArgument
    ensures r.Ok? ==> Now(r.value) == Now(c) + duration && GetDateTimeZone(r.value) == GetDateTimeZone(c)
  {
    if duration <= 0 then Err(IllegalArgument)
    else Ok(c.(instant := c.instant + duration))
  }

  /** `bumpMillis`: only forwards to `bump`, so zero milliseconds is refused. */
  function BumpMillis(c: ResetTime, millis: int): (r: Result<ResetTime>)
    ensures r.Ok? <==> millis > 0
    ensures r.Ok? ==> Now(r.value) == Now(c) + millis
  {
    Bump(c, millis)
  }

  /** `bumpSeconds`: only forwards to `bump` of a thousand times as many milliseconds. */
  function BumpSeconds(c: ResetTime, seconds: int): (r: Result<ResetTime>)
    ensures r.Ok? <==> seconds > 0
    ensures r.Ok? ==> Now(r.value) == Now(c) + 1000 * seconds
  {
    Bump(c, seconds * MillisPerSecond)
  }

  /** `advanceTo`: an instant before the current one is refused; any other, the current
      one included, becomes the clock's instant. */
  function AdvanceTo(c: ResetTime, futureInstant: JodaInstant): (r: Result<ResetTime>)
    ensures r.Ok? <==> Now(c) <= futureInstant
    ensures r.Err? ==> r.failure == IllegalArgument
    ensures r.Ok? ==> Now(r.value) == futureInstant && GetDateTimeZone(r.value) == GetDateTimeZone(c)
  {
    if futureInstant < Now(c) then Err(IllegalArgument)
    else Ok(c.(instant := futureInstant))
  }

  /** Unlike the manual Joda clock, a zero bump is refused here and changes nothing,
      while advancing to the current instant is accepted as a no-op. */
  lemma ZeroBumpIsRefused(c: ResetTime)
    ensures Bump(c, 0) == Err(IllegalArgument) && BumpMillis(c, 0) == Err(IllegalArgument)
    ensures BumpSeconds(c, 0) == Err(IllegalArgument) && After(c, Bump(c, 0)) == c
    ensures AdvanceTo(c, Now(c)) == Ok(c)
  {
  }

  /** The clock does not implement `MutableJodaClock`, but its helpers compute exactly
      what that interface's defaults would over this clock's `bump`. */
  lemma HelpersMatchInterfaceDefaults(c: ResetTime, n: int)
    ensures BumpMillis(c, n) == MutableJodaClock.BumpMillis(Bump, c, n)
    ensures BumpSeconds(c, n) == MutableJodaClock.BumpSeconds(Bump, c, n)
  {
  }

  /** `withZone`: always a new view over this clock, even for its own zone. */
  function WithZone(c: ResetTime, jodaTimeZone: DateTimeZone): (h: Handle<DateTimeZone>)
    ensures h.ZoneView? && h.zone == jodaTimeZone
  {
    ZoneView(jodaTimeZone)
  }

  /** `now()` through a handle: the parent's instant as it is now. */
  function ViewNow(parent: ResetTime, h: Handle<DateTimeZone>): JodaInstant {
    match h
    case TheClock => Now(parent)
    case ZoneView(_) => parent.instant
  }

  /** `getDateTimeZone()` through a handle: the view's own zone. */
  function ViewZone(parent: ResetTime, h: Handle<DateTimeZone>): DateTimeZone {
    match h
    case TheClock => GetDateTimeZone(parent)
    case ZoneView(z) => z
  }

  /** `withZone` through a handle: a view sends it back to the parent, so the answer is
      a fresh view over the parent, never a view over a view. */
  function ViewWithZone(parent: ResetTime, h: Handle<DateTimeZone>, zone: DateTimeZone): (r: Handle<DateTimeZone>)
    ensures r == ZoneView(zone)
    ensures ViewNow(parent, r) == Now(parent) && ViewZone(parent, r) == zone
  {
    WithZone(parent, zone)
  }

  /** One call of the clock's mutators. */
  datatype Call =
    | BumpCall(duration: JodaDuration)
    | BumpMillisCall(millis: int)
    | BumpSecondsCall(seconds: int)
    | AdvanceToCall(futureInstant: JodaInstant)

  function Apply(c: ResetTime, call: Call): (r: Result<ResetTime>)
    ensures r.Ok? ==> Now(c) <= Now(r.value) && GetDateTimeZone(r.value) == GetDateTimeZone(c)
    ensures r.Ok? && !call.AdvanceToCall? ==> Now(c) < Now(r.value)
  {
    match call
    case BumpCall(d) => Bump(c, d)
    case BumpMillisCall(m) => BumpMillis(c, m)
    case BumpSecondsCall(s) => BumpSeconds(c, s)
    case AdvanceToCall(t) => AdvanceTo(c, t)
  }

  /** The clock after a sequence of calls, each refused call leaving it as it was. The
      instant never goes back and the zone never changes. */
  function Run(c: ResetTime, calls: seq<Call>): (r: ResetTime)
    ensures Now(c) <= Now(r)
    ensures GetDateTimeZone(r) == GetDateTimeZone(c)
    decreases |calls|
  {
    if |calls| == 0 then c else Run(After(c, Apply(c, calls[0])), calls[1..])
  }

  lemma {:induction false} RunAppend(c: ResetTime, a: seq<Call>, b: seq<Call>)
    ensures Run(c, a + b) == Run(Run(c, a), b)
    decreases |a|
  {
    if |a| == 0 {
      assert a + b == b;
    } else {
      assert (a + b)[0] == a[0];
      assert (a + b)[1..] == a[1..] + b;
      RunAppend(After(c, Apply(c, a[0])), a[1..], b);
    }
  }

  /** Readings taken between the calls of a sequence never decrease. */
  lemma {:induction false} RunIsMonotone(c: ResetTime, calls: seq<Call>, i: nat, j: nat)
    requires i <= j <= |calls|
    ensures Now(Run(c, calls[..i])) <= Now(Run(c, calls[..j]))
  {
    RunAppend(c, calls[..i], calls[i..j]);
    assert calls[..i] + calls[i..j] == calls[..j];
  }

  /** A view taken before a sequence of calls reads the parent's instant after them. */
  lemma ViewTracksParent(c: ResetTime, zone: DateTimeZone, calls: seq<Call>)
    ensures ViewNow(Run(c, calls), WithZone(c, zone)) == Now(Run(c, calls))
    ensures ViewZone(Run(c, calls), WithZone(c, zone)) == zone
    ensures ViewWithZone(Run(c, calls), WithZone(c, zone), GetDateTimeZone(c)).ZoneView?
  {
  }
}
