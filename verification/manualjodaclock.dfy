/**
  `ManualJodaClock`: a Joda clock holding one instant that only its caller moves, and
  only forward. Zero-length moves are accepted as no-ops.
 */
module ManualJodaClock {
  import opened Time
  import JodaClock
  import MutableJodaClock

  datatype ManualJodaClock = ManualJodaClock(instant: JodaInstant, zone: DateTimeZone)

  /** The constructor rejects a null instant or zone. */
  function New(initialInstant: Option<JodaInstant>, zone: Option<DateTimeZone>): (r: Result<ManualJodaClock>)
    ensures r.Ok? <==> initialInstant.Some? && zone.Some?
    ensures r.Err? ==> r.failure == NullPointer
    ensures r.Ok? ==> Now(r.value) == initialInstant.value && GetDateTimeZone(r.value) == zone.value
  {
    match (initialInstant, zone)
    case (Some(i), Some(z)) => Ok(ManualJodaClock(i, z))
    case _ => Err(NullPointer)
  }

  /** `initiallyAt(clock)`: a manual clock starting at what the given clock reads now,
      in the given clock's zone. */
  function InitiallyAt(clock: JodaClock.JodaReading): (c: ManualJodaClock)
    ensures Now(c) == clock.now && GetDateTimeZone(c) == clock.zone
  {
    ManualJodaClock(clock.now, clock.zone)
  }

  function Now(c: ManualJodaClock): JodaInstant {
    c.instant
  }

  function GetDateTimeZone(c: ManualJodaClock): DateTimeZone {
    c.zone
  }

  /** What the clock answers; `millis()` is inherited, so it agrees with `now()`. */
  function Reading(c: ManualJodaClock): (r: JodaClock.JodaReading)
    ensures JodaClock.Consistent(r) && r.now == Now(c) && r.zone == GetDateTimeZone(c)
  {
    JodaClock.DefaultReading(c.instant, c.zone)
  }

  /** The inherited `getZone()` of a manual clock set to a fixed Joda zone: an offset of
      minus one and a half seconds is reported as minus one second, and one of nineteen
      hours, which Joda accepts and java.time does not, makes `getZone()` throw. */
  lemma GetZoneOfFixedZones(t: JodaInstant)
    ensures JodaClock.GetZone(Reading(ManualJodaClock(t, Fixed(-1500)))) == Ok(Offset(-1))
    ensures ValidDateTimeZone(Fixed(19 * 3600 * 1000))
    ensures JodaClock.GetZone(Reading(ManualJodaClock(t, Fixed(19 * 3600 * 1000)))) == Err(DateTimeFailure)
  {
  }

  /** `bumpMillis`: a negative count is refused; any other moves the clock on by
      exactly that many milliseconds (zero leaves it where it is). */
  function BumpMillis(c: ManualJodaClock, millis: int): (r: Result<ManualJodaClock>)
    ensures r.Ok? <==> millis >= 0
    ensures r.Err? ==> r.failure == IllegalArgument
    ensures r.Ok? ==> Now(r.value) == Now(c) + millis && GetDateTimeZone(r.value) == GetDateTimeZone(c)
  {
    if millis < 0 then Err(IllegalArgument)
    else Ok(c.(instant := c.instant + millis))
  }

  /** `bump`: a negative duration is refused; any other, zero included, is added. */
  function Bump(c: ManualJodaClock, duration: JodaDuration): (r: Result<ManualJodaClock>)
    ensures r.Ok? <==> duration >= 0
    ensures r.Err? ==> r.failure == IllegalArgument
    ensures r.Ok? ==> Now(r.value) == Now(c) + duration && GetDateTimeZone(r.value) == GetDateTimeZone(c)
  {
    if duration < 0 then Err(IllegalArgument)
    else Ok(c.(instant := c.instant + duration))
  }

  /** `bumpSeconds`: `bumpMillis` of a thousand times as many milliseconds. */
  function BumpSeconds(c: ManualJodaClock, secs: int): (r: Result<ManualJodaClock>)
    ensures r.Ok? <==> secs >= 0
    ensures r.Ok? ==> Now(r.value) == Now(c) + 1000 * secs && GetDateTimeZone(r.value) == GetDateTimeZone(c)
  {
    BumpMillis(c, secs * MillisPerSecond)
  }

  /** `advanceTo`: an instant before the current one is refused; any other, the current
      one included, becomes the clock's instant. */
  function AdvanceTo(c: ManualJodaClock, futureInstant: JodaInstant): (r: Result<ManualJodaClock>)
    ensures r.Ok? <==> Now(c) <= futureInstant
    ensures r.Err? ==> r.failure == IllegalArgument
    ensures r.Ok? ==> Now(r.value) == futureInstant && GetDateTimeZone(r.value) == GetDateTimeZone(c)
  {
    if futureInstant < c.instant then Err(IllegalArgument)
    else Ok(c.(instant := futureInstant))
  }

  /** Zero-length moves and advancing to the current instant succeed and change nothing. */
  lemma ZeroMovesAreNoOps(c: ManualJodaClock)
    ensures Bump(c, 0) == Ok(c) && BumpMillis(c, 0) == Ok(c) && BumpSeconds(c, 0) == Ok(c)
    ensures AdvanceTo(c, Now(c)) == Ok(c)
  {
  }

  /** A refused call leaves the clock exactly as it was. */
  lemma RefusedCallsChangeNothing(c: ManualJodaClock, n: int, t: JodaInstant)
    requires n < 0 && t < Now(c)
    ensures After(c, Bump(c, n)) == c && After(c, BumpMillis(c, n)) == c
    ensures After(c, BumpSeconds(c, n)) == c && After(c, AdvanceTo(c, t)) == c
  {
  }

  /** `bump` and `bumpMillis` apply the same rule; and although the clock does not
      implement `MutableJodaClock`, its `bumpSeconds` and `bumpMillis` compute exactly
      what that interface's defaults would over this clock's `bump`. */
  lemma HelpersMatchInterfaceDefaults(c: ManualJodaClock, n: int)
    ensures Bump(c, n) == BumpMillis(c, n)
    ensures BumpMillis(c, n) == MutableJodaClock.BumpMillis(Bump, c, n)
    ensures BumpSeconds(c, n) == MutableJodaClock.BumpSeconds(Bump, c, n)
  {
  }

  /** `withZone`: the clock itself for its own zone, otherwise a view reporting the
      requested zone over this clock. */
  function WithZone(c: ManualJodaClock, overrideZone: DateTimeZone): (h: Handle<DateTimeZone>)
    ensures h.TheClock? <==> overrideZone == GetDateTimeZone(c)
    ensures ViewZone(c, h) == overrideZone
  {
    if overrideZone == c.zone then TheClock else ZoneView(overrideZone)
  }

  /** `now()` through a handle: the parent's instant as it is now. */
  function ViewNow(parent: ManualJodaClock, h: Handle<DateTimeZone>): JodaInstant {
    match h
    case TheClock => Now(parent)
    case ZoneView(_) => parent.instant
  }

  /** `getDateTimeZone()` through a handle: the view's own zone. */
  function ViewZone(parent: ManualJodaClock, h: Handle<DateTimeZone>): DateTimeZone {
    match h
    case TheClock => GetDateTimeZone(parent)
    case ZoneView(z) => z
  }

  /** `withZone` through a handle: a view sends it back to the parent, so views never
      stack on views, and asking for the parent's zone gives back the parent. */
  function ViewWithZone(parent: ManualJodaClock, h: Handle<DateTimeZone>, zone: DateTimeZone): (r: Handle<DateTimeZone>)
    ensures r.TheClock? <==> zone == GetDateTimeZone(parent)
    ensures ViewNow(parent, r) == Now(parent) && ViewZone(parent, r) == zone
  {
    WithZone(parent, zone)
  }

  /** Re-deriving any handle with the parent's own zone gives back the parent itself. */
  lemma RederiveWithParentZone(parent: ManualJodaClock, h: Handle<DateTimeZone>)
    ensures ViewWithZone(parent, h, GetDateTimeZone(parent)) == TheClock
  {
  }

  /** One call of the clock's mutators. */
  datatype Call =
    | BumpCall(duration: JodaDuration)
    | BumpMillisCall(millis: int)
    | BumpSecondsCall(secs: int)
    | AdvanceToCall(futureInstant: JodaInstant)

  function Apply(c: ManualJodaClock, call: Call): (r: Result<ManualJodaClock>)
    ensures r.Ok? ==> Now(c) <= Now(r.value) && GetDateTimeZone(r.value) == GetDateTimeZone(c)
  {
    match call
    case BumpCall(d) => Bump(c, d)
    case BumpMillisCall(m) => BumpMillis(c, m)
    case BumpSecondsCall(s) => BumpSeconds(c, s)
    case AdvanceToCall(t) => AdvanceTo(c, t)
  }

  /** The clock after a sequence of calls, each refused call leaving it as it was. The
      instant never goes back and the zone never changes. */
  function Run(c: ManualJodaClock, calls: seq<Call>): (r: ManualJodaClock)
    ensures Now(c) <= Now(r)
    ensures GetDateTimeZone(r) == GetDateTimeZone(c)
    decreases |calls|
  {
    if |calls| == 0 then c else Run(After(c, Apply(c, calls[0])), calls[1..])
  }

  lemma {:induction false} RunAppend(c: ManualJodaClock, a: seq<Call>, b: seq<Call>)
    ensures Run(c, a + b) == Run(Run(c, a), b)
    decreases |a|
  {
    if |a| == 0 {
      assert a + b == b;
    } else {
      assert (a + b)[0] == a[0];
      assert (a + b)[1..] == a[1..] + b;
      RunAppend(After(c, Apply(c, a[0])), a[1..], b);
    }
  }

  /** Readings taken between the calls of a sequence never decrease. */
  lemma {:induction false} RunIsMonotone(c: ManualJodaClock, calls: seq<Call>, i: nat, j: nat)
    requires i <= j <= |calls|
    ensures Now(Run(c, calls[..i])) <= Now(Run(c, calls[..j]))
  {
    RunAppend(c, calls[..i], calls[i..j]);
    assert calls[..i] + calls[i..j] == calls[..j];
  }

  /** A view taken before a sequence of calls reads the parent's instant after them,
      and still reports its own zone. */
  lemma ViewTracksParent(c: ManualJodaClock, zone: DateTimeZone, calls: seq<Call>)
    ensures ViewNow(Run(c, calls), WithZone(c, zone)) == Now(Run(c, calls))
    ensures ViewZone(Run(c, calls), WithZone(c, zone)) == zone
  {
  }
}
