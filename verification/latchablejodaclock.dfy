/**
  `LatchableJodaClock`: a Joda clock that either follows a delegate clock or is latched
  to a fixed instant. The delegate's answers at the time of each call are an input
  (a `JodaReading`), since the delegate is any clock at all.
 */
module LatchableJodaClock {
  import opened Time
  import JodaClock

  /** The delegate never changes; `fixed` is the latched instant, `None` when the clock
      follows the delegate. */
  datatype LatchableJodaClock = LatchableJodaClock(delegate: ClockRef, fixed: Option<JodaInstant>)

  /** The constructor rejects a null delegate; a new clock is not latched. */
  function New(delegate: Option<ClockRef>): (r: Result<LatchableJodaClock>)
    ensures r.Ok? <==> delegate.Some?
    ensures r.Err? ==> r.failure == NullPointer
    ensures r.Ok? ==> !IsLatched(r.value) && r.value.delegate == delegate.value
  {
    match delegate
    case None => Err(NullPointer)
    case Some(d) => Ok(LatchableJodaClock(d, None))
  }

  predicate IsLatched(c: LatchableJodaClock) {
    c.fixed.Some?
  }

  /** `now()`: the latched instant, or the delegate's `now()`. */
  function Now(c: LatchableJodaClock, delegate: JodaClock.JodaReading): (t: JodaInstant)
    ensures !IsLatched(c) ==> t == delegate.now
  {
    match c.fixed
    case Some(f) => f
    case None => delegate.now
  }

  /** `millis()`: the latched instant's millis, or the delegate's `millis()`. */
  function Millis(c: LatchableJodaClock, delegate: JodaClock.JodaReading): (m: int)
    ensures !IsLatched(c) ==> m == delegate.millis
  {
    match c.fixed
    case Some(f) => f
    case None => delegate.millis
  }

  /** `getDateTimeZone()`: always the delegate's zone, latched or not. */
  function GetDateTimeZone(c: LatchableJodaClock, delegate: JodaClock.JodaReading): DateTimeZone {
    delegate.zone
  }

  /** While latched the clock reads the same instant and millis whatever the delegate
      reads, and `millis()` agrees with `now()`. */
  lemma LatchedIgnoresDelegate(c: LatchableJodaClock, d1: JodaClock.JodaReading, d2: JodaClock.JodaReading)
    requires IsLatched(c)
    ensures Now(c, d1) == Now(c, d2) == c.fixed.value
    ensures Millis(c, d1) == Millis(c, d2) == Now(c, d1)
  {
  }

  /** `millis()` agrees with `now()` in both modes whenever the delegate's own readings
      agree. */
  lemma MillisAgreesWithNow(c: LatchableJodaClock, delegate: JodaClock.JodaReading)
    requires JodaClock.Consistent(delegate)
    ensures Millis(c, delegate) == Now(c, delegate)
  {
  }

  /** `latch()`: freeze at the clock's current reading. */
  function Latch(c: LatchableJodaClock, delegate: JodaClock.JodaReading): (r: LatchableJodaClock)
    ensures IsLatched(r) && r.delegate == c.delegate
    ensures forall d :: Now(r, d) == Now(c, delegate)
  {
    c.(fixed := Some(Now(c, delegate)))
  }

  /** `latchTo(instant)`: freeze at any instant, earlier than the current one or not.
      The argument is stored unchecked, so a null instant leaves the clock unlatched,
      exactly as `unlatch()` does. */
  function LatchTo(c: LatchableJodaClock, instant: Option<JodaInstant>): (r: LatchableJodaClock)
    ensures r.delegate == c.delegate
    ensures IsLatched(r) <==> instant.Some?
    ensures instant.Some? ==> forall d :: Now(r, d) == instant.value
    ensures instant.None? ==> r == Unlatch(c)
  {
    c.(fixed := instant)
  }

  /** `unlatch()`: drop the latched instant; the clock reads the delegate's `now()`
      again, with no offset. */
  function Unlatch(c: LatchableJodaClock): (r: LatchableJodaClock)
    ensures !IsLatched(r) && r.delegate == c.delegate
    ensures forall d :: Now(r, d) == d.now
  {
    c.(fixed := None)
  }

  /** Latching an already latched clock changes nothing, whatever the delegate reads. */
  lemma LatchIsIdempotent(c: LatchableJodaClock, d1: JodaClock.JodaReading, d2: JodaClock.JodaReading)
    ensures Latch(Latch(c, d1), d2) == Latch(c, d1)
    ensures IsLatched(c) ==> Latch(c, d2) == c
  {
  }

  /** Latching and then unlatching is the same as never having latched. */
  lemma UnlatchUndoesLatch(c: LatchableJodaClock, d: JodaClock.JodaReading, t: Option<JodaInstant>)
    requires !IsLatched(c)
    ensures Unlatch(Latch(c, d)) == c && Unlatch(LatchTo(c, t)) == c
  {
  }

  /** The zone is the delegate's in every mode, before and after any latch or unlatch. */
  lemma ZoneIsDelegates(c: LatchableJodaClock, d: JodaClock.JodaReading, t: Option<JodaInstant>)
    ensures GetDateTimeZone(c, d) == d.zone
    ensures GetDateTimeZone(Latch(c, d), d) == GetDateTimeZone(LatchTo(c, t), d) == GetDateTimeZone(Unlatch(c), d) == d.zone
  {
  }

  /** `bump`: a duration that is not positive is refused first, in either mode; then a
      clock that is not latched is refused; otherwise the latched instant moves on by
      exactly the duration. */
  function Bump(c: LatchableJodaClock, duration: JodaDuration): (r: Result<LatchableJodaClock>)
    ensures duration <= 0 ==> r == Err(IllegalArgument)
    ensures duration > 0 && !IsLatched(c) ==> r == Err(IllegalState)
    ensures r.Ok? <==> duration > 0 && IsLatched(c)
    ensures r.Ok? ==> IsLatched(r.value) && r.value.delegate == c.delegate
                      && r.value.fixed.value == c.fixed.value + duration
  {
    if duration <= 0 then Err(IllegalArgument)
    else match c.fixed
      case None => Err(IllegalState)
      case Some(f) => Ok(c.(fixed := Some(f + duration)))
  }

  /** `withZone`: a null zone is refused; any other yields a new view, even for the
      delegate's own zone. */
  function WithZone(c: LatchableJodaClock, zone: Option<DateTimeZone>): (r: Result<Handle<DateTimeZone>>)
    ensures r.Ok? <==> zone.Some?
    ensures r.Err? ==> r.failure == NullPointer
    ensures r.Ok? ==> r.value.ZoneView? && r.value.zone == zone.value
  {
    match zone
    case None => Err(NullPointer)
    case Some(z) => Ok(ZoneView(z))
  }

  /** `now()` through a handle: the parent's `now()` as it is now. */
  function ViewNow(parent: LatchableJodaClock, h: Handle<DateTimeZone>, delegate: JodaClock.JodaReading): JodaInstant {
    Now(parent, delegate)
  }

  /** `millis()` through a handle: the parent's `millis()` as it is now. */
  function ViewMillis(parent: LatchableJodaClock, h: Handle<DateTimeZone>, delegate: JodaClock.JodaReading): int {
    Millis(parent, delegate)
  }

  /** `getDateTimeZone()` through a handle: the view's own zone. */
  function ViewZone(parent: LatchableJodaClock, h: Handle<DateTimeZone>, delegate: JodaClock.JodaReading): DateTimeZone {
    match h
    case TheClock => GetDateTimeZone(parent, delegate)
    case ZoneView(z) => z
  }

  /** `withZone` through a handle: a view sends it back to the parent, null check
      included, so the answer is a fresh view over the parent, never a view over a view. */
  function ViewWithZone(parent: LatchableJodaClock, h: Handle<DateTimeZone>, zone: Option<DateTimeZone>): (r: Result<Handle<DateTimeZone>>)
    ensures r.Ok? <==> zone.Some?
    ensures r.Err? ==> r.failure == NullPointer
    ensures r.Ok? ==> r.value == ZoneView(zone.value)
    ensures r.Ok? ==> forall d :: ViewNow(parent, r.value, d) == Now(parent, d) && ViewZone(parent, r.value, d) == zone.value
  {
    WithZone(parent, zone)
  }

  /** A view taken before the parent is latched reads the latched instant afterwards,
      whatever the delegate reads, and reports its own zone. */
  lemma ViewSeesLaterLatch(c: LatchableJodaClock, zone: DateTimeZone, t: JodaInstant, d: JodaClock.JodaReading)
    ensures WithZone(c, Some(zone)).Ok?
    ensures ViewNow(LatchTo(c, Some(t)), WithZone(c, Some(zone)).value, d) == t
    ensures ViewMillis(LatchTo(c, Some(t)), WithZone(c, Some(zone)).value, d) == t
    ensures ViewZone(LatchTo(c, Some(t)), WithZone(c, Some(zone)).value, d) == zone
  {
  }
}
