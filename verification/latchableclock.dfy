/**
  `LatchableClock`: a java.time clock that either follows a delegate clock or is
  latched to a fixed instant. The delegate's answers at the time of each call are an
  input (a `DelegateReading`).
 */
module LatchableClock {
  import opened Time

  /** What the delegate answers at one moment: `instant()`, `millis()`, `getZone()`. */
  datatype DelegateReading = DelegateReading(instant: Instant, millis: int, zone: ZoneId)

  /** The delegate's `millis()` names the millisecond of its `instant()`, as the
      inherited `Clock.millis()` does. */
  predicate Consistent(d: DelegateReading) {
    d.millis == EpochMilli(d.instant)
  }

  /** The constructor takes the delegate as given, so a new clock is not latched;
      `fixed` is the latched instant, `None` when the clock follows the delegate. */
  datatype LatchableClock = LatchableClock(delegate: ClockRef, fixed: Option<Instant>)

  function New(delegate: ClockRef): (c: LatchableClock)
    ensures !IsLatched(c) && c.delegate == delegate
  {
    LatchableClock(delegate, None)
  }

  predicate IsLatched(c: LatchableClock) {
    c.fixed.Some?
  }

  /** `instant()`: the latched instant, or the delegate's `instant()`. */
  function ReadInstant(c: LatchableClock, delegate: DelegateReading): (t: Instant)
    ensures !IsLatched(c) ==> t == delegate.instant
  {
    match c.fixed
    case Some(f) => f
    case None => delegate.instant
  }

  /** `millis()`: the latched instant's epoch millisecond, or the delegate's `millis()`. */
  function ReadMillis(c: LatchableClock, delegate: DelegateReading): (m: int)
    ensures IsLatched(c) ==> m == EpochMilli(c.fixed.value)
    ensures !IsLatched(c) ==> m == delegate.millis
  {
    match c.fixed
    case Some(f) => EpochMilli(f)
    case None => delegate.millis
  }

  /** `getZone()`: always the delegate's zone. */
  function GetZone(c: LatchableClock, delegate: DelegateReading): ZoneId {
    delegate.zone
  }

  /** `millis()` names the millisecond of `instant()` in both modes whenever the
      delegate's own readings agree; while latched, neither depends on the delegate. */
  lemma ReadingsAgree(c: LatchableClock, d1: DelegateReading, d2: DelegateReading)
    requires Consistent(d1)
    ensures ReadMillis(c, d1) == EpochMilli(ReadInstant(c, d1))
    ensures IsLatched(c) ==> ReadInstant(c, d1) == ReadInstant(c, d2) && ReadMillis(c, d1) == ReadMillis(c, d2)
  {
  }

  /** `latch()`: freeze at the clock's current reading. */
  function Latch(c: LatchableClock, delegate: DelegateReading): (r: LatchableClock)
    ensures IsLatched(r) && r.delegate == c.delegate
    ensures forall d :: ReadInstant(r, d) == ReadInstant(c, delegate)
  {
    c.(fixed := Some(ReadInstant(c, delegate)))
  }

  /** `latchTo(instant)`: freeze at any instant. The argument is stored unchecked, so a
      null instant leaves the clock unlatched, exactly as `unlatch()` does. */
  function LatchTo(c: LatchableClock, instant: Option<Instant>): (r: LatchableClock)
    ensures r.delegate == c.delegate
    ensures IsLatched(r) <==> instant.Some?
    ensures instant.Some? ==> forall d :: ReadInstant(r, d) == instant.value
    ensures instant.None? ==> r == Unlatch(c)
  {
    c.(fixed := instant)
  }

  /** `unlatch()`: drop the latched instant; the clock reads the delegate's `instant()`
      again, with no offset. */
  function Unlatch(c: LatchableClock): (r: LatchableClock)
    ensures !IsLatched(r) && r.delegate == c.delegate
    ensures forall d :: ReadInstant(r, d) == d.instant
  {
    c.(fixed := None)
  }

  /** Latching an already latched clock changes nothing. */
  lemma LatchIsIdempotent(c: LatchableClock, d1: DelegateReading, d2: DelegateReading)
    ensures Latch(Latch(c, d1), d2) == Latch(c, d1)
    ensures IsLatched(c) ==> Latch(c, d2) == c
  {
  }

  /** Latching and then unlatching is the same as never having latched. */
  lemma UnlatchUndoesLatch(c: LatchableClock, d: DelegateReading, t: Option<Instant>)
    requires !IsLatched(c)
    ensures Unlatch(Latch(c, d)) == c && Unlatch(LatchTo(c, t)) == c
  {
  }

  /** The zone is the delegate's in every mode, before and after any latch or unlatch. */
  lemma ZoneIsDelegates(c: LatchableClock, d: DelegateReading, t: Option<Instant>)
    ensures GetZone(c, d) == d.zone
    ensures GetZone(Latch(c, d), d) == GetZone(LatchTo(c, t), d) == GetZone(Unlatch(c), d) == d.zone
  {
  }

  /** `bump` as the code stands: a duration that is not positive is refused first; then
      the guard meant to refuse an unlatched clock is inverted and refuses a latched
      one; and an unlatched clock gets through to add the duration to its null latched
      instant, which throws `NullPointerException`. */
  function Bump(c: LatchableClock, duration: Duration): (r: Result<LatchableClock>)
    ensures duration <= 0 ==> r == Err(IllegalArgument)
    ensures duration > 0 && IsLatched(c) ==> r == Err(IllegalState)
    ensures duration > 0 && !IsLatched(c) ==> r == Err(NullPointer)
  {
    if duration <= 0 then Err(IllegalArgument)
    else if c.fixed != None then Err(IllegalState)
    else match c.fixed
      case None => Err(NullPointer)
      case Some(f) => Ok(c.(fixed := Some(f + duration)))
  }

  /** No call of `bump` as written ever succeeds, so none changes the clock. */
  lemma BumpNeverSucceeds(c: LatchableClock, duration: Duration)
    ensures Bump(c, duration).Err?
    ensures After(c, Bump(c, duration)) == c
  {
  }

  /** The input that shows it: a clock latched at one second, bumped by one second, is
      refused as if it were not latched, where the intended rule moves it to two. */
  lemma LatchedBumpIsRefused()
    ensures Bump(LatchTo(New(0), Some(NanosPerSecond)), NanosPerSecond) == Err(IllegalState)
    ensures BumpIntended(LatchTo(New(0), Some(NanosPerSecond)), NanosPerSecond)
            == Ok(LatchTo(New(0), Some(2 * NanosPerSecond)))
  {
  }

  /** `bump` with the guard the exception message describes (and the Joda twin uses):
      a duration that is not positive is refused first, in either mode; then a clock
      that is not latched is refused; otherwise the latched instant moves on by exactly
      the duration. */
  function BumpIntended(c: LatchableClock, duration: Duration): (r: Result<LatchableClock>)
    ensures duration <= 0 ==> r == Err(IllegalArgument)
    ensures duration > 0 && !IsLatched(c) ==> r == Err(IllegalState)
    ensures r.Ok? <==> duration > 0 && IsLatched(c)
    ensures r.Ok? ==> IsLatched(r.value) && r.value.delegate == c.delegate
                      && r.value.fixed.value == c.fixed.value + duration
  {
    if duration <= 0 then Err(IllegalArgument)
    else match c.fixed
      case None => Err(IllegalState)
      case Some(f) => Ok(c.(fixed := Some(f + duration)))
  }

  /** The corrected rule and the code agree on every call the code refuses for the
      right reason, and differ exactly on positive bumps. */
  lemma BumpIntendedDiffersOnlyOnPositiveBumps(c: LatchableClock, duration: Duration)
    ensures Bump(c, duration) == BumpIntended(c, duration) <==> duration <= 0
  {
  }

  /** `withZone`: always a new view over this clock. */
  function WithZone(c: LatchableClock, zone: ZoneId): (h: Handle<ZoneId>)
    ensures h.ZoneView? && h.zone == zone
  {
    ZoneView(zone)
  }

  /** `instant()` through a handle: the parent's `instant()` as it is now. */
  function ViewInstant(parent: LatchableClock, h: Handle<ZoneId>, delegate: DelegateReading): Instant {
    ReadInstant(parent, delegate)
  }

  /** `millis()` through a handle: the parent's `millis()` as it is now. */
  function ViewMillis(parent: LatchableClock, h: Handle<ZoneId>, delegate: DelegateReading): int {
    ReadMillis(parent, delegate)
  }

  /** `getZone()` through a handle: the view's own zone. */
  function ViewZone(parent: LatchableClock, h: Handle<ZoneId>, delegate: DelegateReading): ZoneId {
    match h
    case TheClock => GetZone(parent, delegate)
    case ZoneView(z) => z
  }

  /** `withZone` through a handle: a view sends it back to the parent, so the answer is
      a fresh view over the parent, never a view over a view. */
  function ViewWithZone(parent: LatchableClock, h: Handle<ZoneId>, zone: ZoneId): (r: Handle<ZoneId>)
    ensures r == ZoneView(zone)
    ensures forall d :: ViewInstant(parent, r, d) == ReadInstant(parent, d) && ViewZone(parent, r, d) == zone
  {
    WithZone(parent, zone)
  }

  /** A view taken before the parent is latched reads the latched instant and its
      millisecond afterwards, whatever the delegate reads, and reports its own zone. */
  lemma ViewSeesLaterLatch(c: LatchableClock, zone: ZoneId, t: Instant, d: DelegateReading)
    ensures ViewInstant(LatchTo(c, Some(t)), WithZone(c, zone), d) == t
    ensures ViewMillis(LatchTo(c, Some(t)), WithZone(c, zone), d) == EpochMilli(t)
    ensures ViewZone(LatchTo(c, Some(t)), WithZone(c, zone), d) == zone
  {
  }
}
