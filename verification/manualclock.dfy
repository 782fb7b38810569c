/**
  `ManualClock`: a java.time clock holding one instant that only its caller moves, and
  only strictly forward: every move, zero-length ones included, must be positive.
 */
module ManualClock {
  import opened Time
  import MutableClock

  /** The constructor takes both values as given; it checks neither for null. */
  datatype ManualClock = ManualClock(instant: Instant, zone: ZoneId)

  function ReadInstant(c: ManualClock): Instant {
    c.instant
  }

  function GetZone(c: ManualClock): ZoneId {
    c.zone
  }

  /** `bump`: a negative or zero duration is refused; a positive one is added, and
      nothing else about the clock changes. */
  function Bump(c: ManualClock, duration: Duration): (r: Result<ManualClock>)
    ensures r.Ok? <==> duration > 0
    ensures r.Err? ==> r.failure == IllegalArgument
    ensures r.Ok? ==> ReadInstant(r.value) == ReadInstant(c) + duration && GetZone(r.value) == GetZone(c)
  {
    if duration <= 0 then Err(IllegalArgument)
    else Ok(c.(instant := c.instant + duration))
  }

  /** `bumpSeconds`: `bump(Duration.ofSeconds(secs))`, so zero seconds is refused too. */
  function BumpSeconds(c: ManualClock, secs: int): (r: Result<ManualClock>)
    ensures r.Ok? <==> secs > 0
    ensures r.Ok? ==> ReadInstant(r.value) == ReadInstant(c) + secs * NanosPerSecond
  {
    Bump(c, secs * NanosPerSecond)
  }

  /** `bumpMillis`: `bump(Duration.ofMillis(millis))`, so zero milliseconds is refused too. */
  function BumpMillis(c: ManualClock, millis: int): (r: Result<ManualClock>)
    ensures r.Ok? <==> millis > 0
    ensures r.Ok? ==> ReadInstant(r.value) == ReadInstant(c) + millis * NanosPerMilli
  {
    Bump(c, millis * NanosPerMilli)
  }

  /** Every bump of zero is refused and leaves the clock as it was. */
  lemma ZeroIsRefused(c: ManualClock)
    ensures Bump(c, 0) == Err(IllegalArgument) && After(c, Bump(c, 0)) == c
    ensures BumpSeconds(c, 0) == Err(IllegalArgument) && BumpMillis(c, 0) == Err(IllegalArgument)
  {
  }

  /** The clock does not implement `MutableClock`, but its helpers compute exactly what
      that interface's defaults would over this clock's `bump`. */
  lemma HelpersMatchInterfaceDefaults(c: ManualClock, n: int)
    ensures BumpSeconds(c, n) == MutableClock.BumpSeconds(Bump, c, n)
    ensures BumpMillis(c, n) == MutableClock.BumpMillis(Bump, c, n)
    ensures BumpSeconds(c, n) == BumpMillis(c, 1000 * n)
  {
  }

  /** `withZone`: always a new view over this clock, even for the clock's own zone. */
  function WithZone(c: ManualClock, overrideZone: ZoneId): (h: Handle<ZoneId>)
    ensures h.ZoneView?
    ensures ViewZone(c, h) == overrideZone
  {
    ZoneView(overrideZone)
  }

  /** `instant()` through a handle: the parent's instant as it is now. */
  function ViewInstant(parent: ManualClock, h: Handle<ZoneId>): Instant {
    match h
    case TheClock => ReadInstant(parent)
    case ZoneView(_) => parent.instant
  }

  /** `getZone()` through a handle: the view's own zone. */
  function ViewZone(parent: ManualClock, h: Handle<ZoneId>): ZoneId {
    match h
    case TheClock => GetZone(parent)
    case ZoneView(z) => z
  }

  /** `withZone` through a handle: a view sends it back to the parent, so the answer is
      a fresh view over the parent, never a view over a view. */
  function ViewWithZone(parent: ManualClock, h: Handle<ZoneId>, zone: ZoneId): (r: Handle<ZoneId>)
    ensures r == ZoneView(zone)
    ensures ViewInstant(parent, r) == ReadInstant(parent) && ViewZone(parent, r) == zone
  {
    WithZone(parent, zone)
  }

  /** Unlike the Joda manual clock, asking for the parent's own zone still yields a
      distinct view, from the parent or from any view of it. */
  lemma NoIdentityShortcut(parent: ManualClock, h: Handle<ZoneId>)
    ensures ViewWithZone(parent, h, GetZone(parent)) != TheClock
  {
  }

  /** One call of the clock's mutators. */
  datatype Call = BumpCall(duration: Duration) | BumpSecondsCall(secs: int) | BumpMillisCall(millis: int)

  function Apply(c: ManualClock, call: Call): (r: Result<ManualClock>)
    ensures r.Ok? ==> ReadInstant(c) < ReadInstant(r.value) && GetZone(r.value) == GetZone(c)
  {
    match call
    case BumpCall(d) => Bump(c, d)
    case BumpSecondsCall(s) => BumpSeconds(c, s)
    case BumpMillisCall(m) => BumpMillis(c, m)
  }

  /** The clock after a sequence of calls, each refused call leaving it as it was. The
      zone never changes, and the instant is either strictly later or, when every call
      was refused, the clock is exactly as it started. */
  function Run(c: ManualClock, calls: seq<Call>): (r: ManualClock)
    ensures ReadInstant(c) <= ReadInstant(r)
    ensures GetZone(r) == GetZone(c)
    ensures ReadInstant(r) == ReadInstant(c) ==> r == c
    decreases |calls|
  {
    if |calls| == 0 then c else Run(After(c, Apply(c, calls[0])), calls[1..])
  }

  /** A sequence of calls moves the clock exactly when one of its calls is accepted. */
  lemma {:induction false} RunMovesIffSomeCallAccepted(c: ManualClock, calls: seq<Call>)
    ensures ReadInstant(Run(c, calls)) > ReadInstant(c) <==> exists k :: 0 <= k < |calls| && Accepted(c, calls, k)
    decreases |calls|
  {
    if |calls| > 0 {
      var c' := After(c, Apply(c, calls[0]));
      RunMovesIffSomeCallAccepted(c', calls[1..]);
      if Apply(c, calls[0]).Ok? {
        assert Accepted(c, calls, 0);
      } else {
        assert c' == c;
        forall k | 0 <= k < |calls| - 1
          ensures Accepted(c, calls, k + 1) <==> Accepted(c', calls[1..], k)
        {
          assert calls[..k + 1] == [calls[0]] + calls[1..][..k];
          RunCons(c, calls[0], calls[1..][..k]);
        }
        if exists k :: 0 <= k < |calls| && Accepted(c, calls, k) {
          var k :| 0 <= k < |calls| && Accepted(c, calls, k);
          assert k != 0;
          assert Accepted(c', calls[1..], k - 1);
        }
      }
    }
  }

  /** Call `k` of the sequence is accepted in the state the earlier calls leave. */
  predicate Accepted(c: ManualClock, calls: seq<Call>, k: nat)
    requires k < |calls|
  {
    Apply(Run(c, calls[..k]), calls[k]).Ok?
  }

  lemma RunCons(c: ManualClock, call: Call, rest: seq<Call>)
    ensures Run(c, [call] + rest) == Run(After(c, Apply(c, call)), rest)
  {
    assert ([call] + rest)[1..] == rest;
  }

  /** A view taken before a sequence of bumps reads the parent's instant after them. */
  lemma ViewTracksParent(c: ManualClock, zone: ZoneId, calls: seq<Call>)
    ensures ViewInstant(Run(c, calls), WithZone(c, zone)) == ReadInstant(Run(c, calls))
    ensures ViewZone(Run(c, calls), WithZone(c, zone)) == zone
  {
  }
}
