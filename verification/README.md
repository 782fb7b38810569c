# Controllable clocks, modelled in Dafny

A model of the controllable clocks of the `com.timgroup.clocks` library and of the
zone rules they share. The library gives application code an injectable "current
time". Tests substitute clocks they control:

- manual clocks: `ManualClock`, `ManualJodaClock`, and the clock half of `ResetTime`;
- latchable clocks: `LatchableClock`, `LatchableJodaClock`;
- supplier-backed clocks: `SupplierClock`, `SupplierJodaClock`;
- the fixed clock `FixedJodaClock`;
- the Joda-Time bridge `JodaClock`, with its `Delegating` adapter;
- `JodaCompatibleClock`;
- the mutation interfaces `MutableClock` and `MutableJodaClock`.

Each Java class is one Dafny module of the same name (`time.dfy` holds the shared
values). Each clock is an immutable datatype. Each mutator is a function that returns
`Ok(new state)` or `Err(failure)`, where the failure stands for the exception the
source throws. `After(s, r)` is the state a call leaves behind: the old state when
the call threw. This is how "a refused call changes nothing" is stated.

Units and zones:

- A Joda-Time instant or duration is an `int` of milliseconds.
- A java.time instant or duration is an `int` of nanoseconds. `toEpochMilli`
  rounds toward negative infinity, which is Dafny's `/` by a positive divisor.
- A java.time zone is `Offset(totalSeconds) | Region(id)`. UTC is `Offset(0)`.
- A Joda zone is `Fixed(offsetMillis) | Named(id)`. Joda's UTC is `Fixed(0)`.
- Offset ranges are those of the two libraries: ±18 hours for `ZoneOffset`, and
  just under ±24 hours for a Joda fixed zone.

What `withZone` returns:

- A clock that is a plain value returns `Derived`: `Same` (the receiver object
  itself) or `Created(clock)`. This covers the supplier, fixed, compatible and
  delegating clocks.
- A mutable clock returns a `Handle`: `TheClock` or `ZoneView(zone)`. A view has
  no time of its own. Its readings are functions of the parent's *current* state, so
  later bumps and latches show through it. Its `withZone` goes back to the parent,
  so views never stack.

Inputs: anything the clocks read from outside is an input parameter. That covers
a latchable clock's delegate, a supplier's current value, the wrapped java.time clock
of `Delegating`, Joda's global millis source and the process default zone. Each is
given as what it answers at the time of the call.

## Model

| member | source | states |
|---|---|---|
| ManualJodaClock.New | joda/testing/src/main/java/com/timgroup/clocks/joda/testing/ManualJodaClock.java:26-29 | a null instant or zone is refused with NullPointer; otherwise the clock reads exactly the given instant and zone |
| ManualJodaClock.InitiallyAt | joda/testing/src/main/java/com/timgroup/clocks/joda/testing/ManualJodaClock.java:18-20 | the new clock starts at what the given clock reads now, in its zone |
| ManualJodaClock.Reading | joda/testing/src/main/java/com/timgroup/clocks/joda/testing/ManualJodaClock.java:56-64 | now() is the held instant, the zone is the held zone, and the inherited millis() agrees with now() |
| ManualJodaClock.GetZoneOfFixedZones | joda/src/main/java/com/timgroup/clocks/joda/JodaClock.java:40-43 | getZone() of a manual clock in a fixed zone of -1.5 s reports -1 s, and in a fixed zone of 19 h, which Joda accepts, fails with DateTimeFailure |
| ManualJodaClock.BumpMillis | joda/testing/src/main/java/com/timgroup/clocks/joda/testing/ManualJodaClock.java:35-40 | succeeds iff millis >= 0, and then moves the instant on by exactly millis with the zone unchanged; a negative count fails with IllegalArgument |
| ManualJodaClock.Bump | joda/testing/src/main/java/com/timgroup/clocks/joda/testing/ManualJodaClock.java:42-47 | accepts every non-negative duration, zero included, and adds it; refuses a negative one with IllegalArgument |
| ManualJodaClock.BumpSeconds | joda/testing/src/main/java/com/timgroup/clocks/joda/testing/ManualJodaClock.java:31-33 | succeeds iff secs >= 0, moving the instant on by 1000 * secs milliseconds |
| ManualJodaClock.AdvanceTo | joda/testing/src/main/java/com/timgroup/clocks/joda/testing/ManualJodaClock.java:49-54 | succeeds iff the target is not before the current instant, and then the instant becomes the target; otherwise IllegalArgument |
| ManualJodaClock.ZeroMovesAreNoOps | joda/testing/src/main/java/com/timgroup/clocks/joda/testing/ManualJodaClock.java:31-54 | bumps of zero and advancing to the current instant succeed and leave the clock equal to what it was |
| ManualJodaClock.RefusedCallsChangeNothing | joda/testing/src/main/java/com/timgroup/clocks/joda/testing/ManualJodaClock.java:35-54 | a refused bump or advance leaves the clock exactly as it was |
| ManualJodaClock.HelpersMatchInterfaceDefaults | joda/testing/src/main/java/com/timgroup/clocks/joda/testing/ManualJodaClock.java:31-47 | bump and bumpMillis apply one rule, and the clock's helpers equal the MutableJodaClock defaults over its bump |
| ManualJodaClock.WithZone | joda/testing/src/main/java/com/timgroup/clocks/joda/testing/ManualJodaClock.java:66-80 | returns the clock itself iff the zone equals its own, otherwise a view; either way the result reports the requested zone |
| ManualJodaClock.ViewWithZone | joda/testing/src/main/java/com/timgroup/clocks/joda/testing/ManualJodaClock.java:82-85 | withZone on a view answers as the parent would: the parent itself iff the zone is the parent's, otherwise a view that reads the parent's now() and reports the zone |
| ManualJodaClock.RederiveWithParentZone | joda/testing/src/main/java/com/timgroup/clocks/joda/testing/ManualJodaClock.java:68-85 | asking any view for the parent's own zone yields the parent itself |
| ManualJodaClock.Apply | joda/testing/src/main/java/com/timgroup/clocks/joda/testing/ManualJodaClock.java:31-54 | no accepted mutation moves the instant back or changes the zone |
| ManualJodaClock.Run | joda/testing/src/main/java/com/timgroup/clocks/joda/testing/ManualJodaClock.java:15-54 | after any sequence of calls, some refused, the instant is not earlier and the zone is the same |
| ManualJodaClock.RunIsMonotone | joda/testing/src/main/java/com/timgroup/clocks/joda/testing/ManualJodaClock.java:31-54 | readings taken between the calls of any sequence never decrease |
| ManualJodaClock.ViewTracksParent | joda/testing/src/main/java/com/timgroup/clocks/joda/testing/ManualJodaClock.java:71-80 | a view taken before a sequence of calls reads the parent's instant after them and reports its own zone |
| ManualClock.Bump | testing/src/main/java/com/timgroup/clocks/testing/ManualClock.java:28-33 | succeeds iff the duration is strictly positive, adding it and changing nothing else; zero and negatives fail with IllegalArgument |
| ManualClock.BumpSeconds | testing/src/main/java/com/timgroup/clocks/testing/ManualClock.java:20-22 | succeeds iff secs > 0, adding secs seconds |
| ManualClock.BumpMillis | testing/src/main/java/com/timgroup/clocks/testing/ManualClock.java:24-26 | succeeds iff millis > 0, adding millis milliseconds |
| ManualClock.ZeroIsRefused | testing/src/main/java/com/timgroup/clocks/testing/ManualClock.java:20-33 | bump, bumpSeconds and bumpMillis of zero all fail, leaving the clock as it was |
| ManualClock.HelpersMatchInterfaceDefaults | testing/src/main/java/com/timgroup/clocks/testing/ManualClock.java:20-26 | the helpers equal the MutableClock defaults over this bump, and bumpSeconds(n) is bumpMillis(1000 n) |
| ManualClock.WithZone | testing/src/main/java/com/timgroup/clocks/testing/ManualClock.java:45-56 | always a new view, never the clock itself, reporting the requested zone |
| ManualClock.ViewWithZone | testing/src/main/java/com/timgroup/clocks/testing/ManualClock.java:58-61 | withZone on a view gives a fresh view over the parent, reading the parent's instant and reporting the zone |
| ManualClock.NoIdentityShortcut | testing/src/main/java/com/timgroup/clocks/testing/ManualClock.java:45-61 | even the parent's own zone yields a view, not the parent |
| ManualClock.Apply | testing/src/main/java/com/timgroup/clocks/testing/ManualClock.java:20-33 | every accepted call strictly advances the instant and keeps the zone |
| ManualClock.Run | testing/src/main/java/com/timgroup/clocks/testing/ManualClock.java:28-33 | after any sequence of calls the instant is not earlier and the zone unchanged, and an unchanged instant means an unchanged clock |
| ManualClock.RunMovesIffSomeCallAccepted | testing/src/main/java/com/timgroup/clocks/testing/ManualClock.java:28-33 | a sequence of calls moves the clock exactly when at least one of its calls is accepted |
| ManualClock.ViewTracksParent | testing/src/main/java/com/timgroup/clocks/testing/ManualClock.java:47-56 | a view taken before a sequence of bumps reads the parent's instant after them |
| LatchableJodaClock.New | joda/testing/src/main/java/com/timgroup/clocks/joda/testing/LatchableJodaClock.java:19-21 | a null delegate is refused with NullPointer; a new clock is not latched |
| LatchableJodaClock.Now | joda/testing/src/main/java/com/timgroup/clocks/joda/testing/LatchableJodaClock.java:23-29 | an unlatched clock reads the delegate's now() |
| LatchableJodaClock.Millis | joda/testing/src/main/java/com/timgroup/clocks/joda/testing/LatchableJodaClock.java:31-37 | an unlatched clock reads the delegate's millis() |
| LatchableJodaClock.LatchedIgnoresDelegate | joda/testing/src/main/java/com/timgroup/clocks/joda/testing/LatchableJodaClock.java:23-37 | a latched clock reads its fixed instant, in now() and millis(), whatever the delegate reads |
| LatchableJodaClock.MillisAgreesWithNow | joda/testing/src/main/java/com/timgroup/clocks/joda/testing/LatchableJodaClock.java:23-37 | millis() equals now() in both modes when the delegate's own readings agree |
| LatchableJodaClock.ZoneIsDelegates | joda/testing/src/main/java/com/timgroup/clocks/joda/testing/LatchableJodaClock.java:39-54 | the zone is the delegate's whether or not the clock is latched |
| LatchableJodaClock.Latch | joda/testing/src/main/java/com/timgroup/clocks/joda/testing/LatchableJodaClock.java:44-46 | latches, and afterwards reads the value it read just before, whatever the delegate does |
| LatchableJodaClock.LatchTo | joda/testing/src/main/java/com/timgroup/clocks/joda/testing/LatchableJodaClock.java:48-50 | a given instant latches the clock, earlier or not, and it then reads that instant whatever the delegate does; a null instant is stored as it is and leaves the clock exactly as unlatch() does |
| LatchableJodaClock.Unlatch | joda/testing/src/main/java/com/timgroup/clocks/joda/testing/LatchableJodaClock.java:52-54 | unlatches, and afterwards reads the delegate's raw now(), with no offset |
| LatchableJodaClock.LatchIsIdempotent | joda/testing/src/main/java/com/timgroup/clocks/joda/testing/LatchableJodaClock.java:44-46 | latching a latched clock changes nothing |
| LatchableJodaClock.UnlatchUndoesLatch | joda/testing/src/main/java/com/timgroup/clocks/joda/testing/LatchableJodaClock.java:44-54 | latching then unlatching returns an unlatched clock to what it was |
| LatchableJodaClock.Bump | joda/testing/src/main/java/com/timgroup/clocks/joda/testing/LatchableJodaClock.java:87-95 | a non-positive duration fails with IllegalArgument in either mode; then an unlatched clock fails with IllegalState; otherwise the fixed instant grows by exactly the duration |
| LatchableJodaClock.WithZone | joda/testing/src/main/java/com/timgroup/clocks/joda/testing/LatchableJodaClock.java:56-59 | a null zone fails with NullPointer; any other yields a new view reporting that zone |
| LatchableJodaClock.ViewWithZone | joda/testing/src/main/java/com/timgroup/clocks/joda/testing/LatchableJodaClock.java:70-73 | withZone on a view refuses a null zone with NullPointer as the parent does; otherwise a fresh view over the parent, reading the parent's now() and reporting the zone |
| LatchableJodaClock.ViewSeesLaterLatch | joda/testing/src/main/java/com/timgroup/clocks/joda/testing/LatchableJodaClock.java:59-78 | a view taken before the parent is latched reads the latched instant in now() and millis() and reports its own zone |
| LatchableClock.New | testing/src/main/java/com/timgroup/clocks/testing/LatchableClock.java:17-19 | a new clock is not latched |
| LatchableClock.ReadInstant | testing/src/main/java/com/timgroup/clocks/testing/LatchableClock.java:21-27 | an unlatched clock reads the delegate's instant() |
| LatchableClock.ReadMillis | testing/src/main/java/com/timgroup/clocks/testing/LatchableClock.java:29-35 | a latched clock reads its fixed instant's epoch millisecond, an unlatched one the delegate's millis() |
| LatchableClock.ReadingsAgree | testing/src/main/java/com/timgroup/clocks/testing/LatchableClock.java:21-35 | millis() is the epoch millisecond of instant() when the delegate agrees with itself; a latched clock ignores the delegate |
| LatchableClock.ZoneIsDelegates | testing/src/main/java/com/timgroup/clocks/testing/LatchableClock.java:37-52 | the zone is the delegate's whether or not the clock is latched |
| LatchableClock.Latch | testing/src/main/java/com/timgroup/clocks/testing/LatchableClock.java:42-44 | latches, and afterwards reads the value it read just before |
| LatchableClock.LatchTo | testing/src/main/java/com/timgroup/clocks/testing/LatchableClock.java:46-48 | a given instant latches the clock, which then reads it whatever the delegate does; a null instant is stored as it is and leaves the clock exactly as unlatch() does |
| LatchableClock.Unlatch | testing/src/main/java/com/timgroup/clocks/testing/LatchableClock.java:50-52 | unlatches, and afterwards reads the delegate's instant() with no offset |
| LatchableClock.LatchIsIdempotent | testing/src/main/java/com/timgroup/clocks/testing/LatchableClock.java:42-44 | latching a latched clock changes nothing |
| LatchableClock.UnlatchUndoesLatch | testing/src/main/java/com/timgroup/clocks/testing/LatchableClock.java:42-52 | latching, at the current reading or at any instant, then unlatching returns an unlatched clock to what it was |
| LatchableClock.Bump | testing/src/main/java/com/timgroup/clocks/testing/LatchableClock.java:84-92 | as written: non-positive fails with IllegalArgument; positive on a latched clock fails with IllegalState; positive on an unlatched clock fails with NullPointer |
| LatchableClock.BumpNeverSucceeds | testing/src/main/java/com/timgroup/clocks/testing/LatchableClock.java:84-92 | no bump call as written succeeds or changes the clock |
| LatchableClock.LatchedBumpIsRefused | testing/src/main/java/com/timgroup/clocks/testing/LatchableClock.java:88-91 | a clock latched at 1 s and bumped by 1 s is refused, where the intended rule gives 2 s |
| LatchableClock.BumpIntended | testing/src/main/java/com/timgroup/clocks/testing/LatchableClock.java:84-92 | corrected rule: IllegalArgument first, then IllegalState when unlatched, otherwise the fixed instant grows by exactly the duration |
| LatchableClock.BumpIntendedDiffersOnlyOnPositiveBumps | testing/src/main/java/com/timgroup/clocks/testing/LatchableClock.java:84-92 | the code and the corrected rule agree exactly on the non-positive durations |
| LatchableClock.WithZone | testing/src/main/java/com/timgroup/clocks/testing/LatchableClock.java:54-56 | always a new view reporting the requested zone |
| LatchableClock.ViewWithZone | testing/src/main/java/com/timgroup/clocks/testing/LatchableClock.java:67-70 | withZone on a view gives a fresh view over the parent, reading the parent's instant() whatever the delegate does and reporting the zone |
| LatchableClock.ViewSeesLaterLatch | testing/src/main/java/com/timgroup/clocks/testing/LatchableClock.java:56-75 | a view taken before the parent is latched reads the latched instant and its millisecond and reports its own zone |
| ResetTime.New | joda/testing/src/main/java/com/timgroup/clocks/joda/testing/ResetTime.java:25-28 | a null instant or zone is refused with NullPointer; otherwise now() and getDateTimeZone() return the given values |
| ResetTime.To | joda/testing/src/main/java/com/timgroup/clocks/joda/testing/ResetTime.java:166-168 | frozen at the given instant in the process default zone; null instant refused |
| ResetTime.ToInZone | joda/testing/src/main/java/com/timgroup/clocks/joda/testing/ResetTime.java:170-172 | frozen at the given instant in the given zone; nulls refused |
| ResetTime.ToDateTime | joda/testing/src/main/java/com/timgroup/clocks/joda/testing/ResetTime.java:174-176 | frozen at the date-time's instant in its zone; a null date-time is refused with NullPointer |
| ResetTime.Bump | joda/testing/src/main/java/com/timgroup/clocks/joda/testing/ResetTime.java:106-111 | succeeds iff the duration is strictly positive, adding it; zero and negatives fail with IllegalArgument |
| ResetTime.BumpMillis | joda/testing/src/main/java/com/timgroup/clocks/joda/testing/ResetTime.java:119-121 | succeeds iff millis > 0, so zero is refused |
| ResetTime.BumpSeconds | joda/testing/src/main/java/com/timgroup/clocks/joda/testing/ResetTime.java:129-131 | succeeds iff seconds > 0, adding 1000 * seconds milliseconds |
| ResetTime.AdvanceTo | joda/testing/src/main/java/com/timgroup/clocks/joda/testing/ResetTime.java:139-144 | succeeds iff the target is not before now(), then now() becomes the target; otherwise IllegalArgument |
| ResetTime.ZeroBumpIsRefused | joda/testing/src/main/java/com/timgroup/clocks/joda/testing/ResetTime.java:106-144 | zero bumps fail and change nothing, while advancing to now() is an accepted no-op |
| ResetTime.HelpersMatchInterfaceDefaults | joda/testing/src/main/java/com/timgroup/clocks/joda/testing/ResetTime.java:119-131 | bumpMillis and bumpSeconds equal the MutableJodaClock defaults over this bump |
| ResetTime.WithZone | joda/testing/src/main/java/com/timgroup/clocks/joda/testing/ResetTime.java:75-86 | always a new view, reporting the requested zone |
| ResetTime.ViewWithZone | joda/testing/src/main/java/com/timgroup/clocks/joda/testing/ResetTime.java:88-91 | withZone on a view gives a fresh view over the parent, reading the parent's now() and reporting the zone |
| ResetTime.Apply | joda/testing/src/main/java/com/timgroup/clocks/joda/testing/ResetTime.java:106-144 | accepted calls never move the instant back, and accepted bumps move it strictly forward |
| ResetTime.Run | joda/testing/src/main/java/com/timgroup/clocks/joda/testing/ResetTime.java:106-144 | after any sequence of calls the instant is not earlier and the zone is unchanged |
| ResetTime.RunIsMonotone | joda/testing/src/main/java/com/timgroup/clocks/joda/testing/ResetTime.java:106-144 | readings taken between the calls of any sequence never decrease |
| ResetTime.ViewTracksParent | joda/testing/src/main/java/com/timgroup/clocks/joda/testing/ResetTime.java:76-91 | a view taken before a sequence of calls reads the parent's instant after them, reports its own zone, and still re-derives as a view |
| SupplierClock.Utc | testing/src/main/java/com/timgroup/clocks/testing/SupplierClock.java:24-26 | a clock in UTC that reads whatever the given supplier hands back |
| SupplierClock.Readings | testing/src/main/java/com/timgroup/clocks/testing/SupplierClock.java:37-40 | at each moment the clock reads exactly the supplier's value at that moment |
| SupplierClock.PassesAnySeriesThrough | testing/src/main/java/com/timgroup/clocks/testing/SupplierClock.java:37-40 | any series of supplier values, repeated or decreasing, is read back unchanged |
| SupplierClock.WithZone | testing/src/main/java/com/timgroup/clocks/testing/SupplierClock.java:47-53 | the clock itself iff the zone equals its own; otherwise a new clock on the same supplier reporting the requested zone |
| SupplierClock.WithZoneFollowsSupplier | testing/src/main/java/com/timgroup/clocks/testing/SupplierClock.java:47-53 | the clock from withZone reads what the original reads at every later moment |
| SupplierJodaClock.Utc | joda/testing/src/main/java/com/timgroup/clocks/joda/testing/SupplierJodaClock.java:24-26 | a clock in Joda's UTC that reads whatever the given supplier hands back |
| SupplierJodaClock.Reading | joda/testing/src/main/java/com/timgroup/clocks/joda/testing/SupplierJodaClock.java:37-45 | now() is the supplier's current value, the zone is the constructor's, and millis() agrees with now() |
| SupplierJodaClock.WithZone | joda/testing/src/main/java/com/timgroup/clocks/joda/testing/SupplierJodaClock.java:47-53 | the clock itself iff the zone equals its own; otherwise a clock reporting the new zone that reads what the original reads at every moment |
| SupplierJodaClock.WithUTCOfSupplierClock | joda/testing/src/main/java/com/timgroup/clocks/joda/testing/SupplierJodaClock.java:47-53 | withUTC() gives the clock itself iff it is already in UTC, and otherwise the UTC clock over the same supplier |
| FixedJodaClock.New | joda/src/main/java/com/timgroup/clocks/joda/FixedJodaClock.java:12-15 | a null instant or zone is refused with NullPointer; otherwise the clock reads the given instant and zone |
| FixedJodaClock.Reading | joda/src/main/java/com/timgroup/clocks/joda/FixedJodaClock.java:17-25 | now() is the constructor instant, the zone the constructor zone, and millis() agrees with now() |
| FixedJodaClock.WithZone | joda/src/main/java/com/timgroup/clocks/joda/FixedJodaClock.java:27-32 | the clock itself iff the zone equals its own; otherwise a new fixed clock at the same instant reporting the new zone |
| FixedJodaClock.WithZonesKeepInstant | joda/src/main/java/com/timgroup/clocks/joda/FixedJodaClock.java:27-32 | through any chain of withZone calls the instant is unchanged and the last zone asked for is reported |
| JodaClock.JavaDiv | joda/src/main/java/com/timgroup/clocks/joda/JodaClock.java:95 | Java integer division truncates toward zero |
| JodaClock.ToDateTimeZone | joda/src/main/java/com/timgroup/clocks/joda/JodaClock.java:45-54 | UTC maps to Joda's UTC, offsets to fixed zones and regions to named zones, always within Joda's range |
| JodaClock.OfTotalSeconds | joda/src/main/java/com/timgroup/clocks/joda/JodaClock.java:95 | an offset beyond eighteen hours fails with DateTimeFailure; any other gives that offset |
| JodaClock.ToZoneId | joda/src/main/java/com/timgroup/clocks/joda/JodaClock.java:90-100 | fixed zones map to the offset of their truncated seconds, failing beyond eighteen hours; named zones map to the region of the same id |
| JodaClock.GetZone | joda/src/main/java/com/timgroup/clocks/joda/JodaClock.java:40-43 | getZone() of any Joda clock succeeds iff its zone is named or its offset truncates to within eighteen hours, failing with DateTimeFailure otherwise; UTC gives UTC, a named zone the region of its id, a fixed zone the offset of its truncated seconds |
| JodaClock.GetZoneOfConvertedZone | joda/src/main/java/com/timgroup/clocks/joda/JodaClock.java:40-54 | a clock whose zone was converted from a java.time zone reports exactly that zone from getZone() |
| JodaClock.ZoneIdRoundTrip | joda/src/main/java/com/timgroup/clocks/joda/JodaClock.java:45-100 | every modelled java.time zone (offsets within range, and regions that Joda keeps as named zones) comes back unchanged from a trip through Joda-Time |
| JodaClock.DateTimeZoneRoundTrip | joda/src/main/java/com/timgroup/clocks/joda/JodaClock.java:45-100 | a Joda zone comes back unchanged iff it is named or its offset is a whole number of seconds |
| JodaClock.SubSecondOffsetTruncates | joda/src/main/java/com/timgroup/clocks/joda/JodaClock.java:94-96 | a -1.5 s fixed zone maps to -1 s, truncating toward zero |
| JodaClock.DefaultReading | joda/src/main/java/com/timgroup/clocks/joda/JodaClock.java:58-61 | the inherited millis() equals now() |
| JodaClock.InstantOf | joda/src/main/java/com/timgroup/clocks/joda/JodaClock.java:63-66 | instant() is a whole-millisecond instant whose epoch millisecond is millis() |
| JodaClock.ReadingsAgree | joda/src/main/java/com/timgroup/clocks/joda/JodaClock.java:58-66 | now(), millis() and instant() name the same millisecond when millis() is consistent with now() |
| JodaClock.WithUTCIsWithZoneIdUTC | joda/src/main/java/com/timgroup/clocks/joda/JodaClock.java:82-88 | withUTC() and withZone(ZoneOffset.UTC) make the same call |
| JodaClock.WithZoneIdOfOffset | joda/src/main/java/com/timgroup/clocks/joda/JodaClock.java:86-88 | withZone of an offset of s seconds is withZone of the fixed zone of 1000 s milliseconds |
| JodaClock.NewDelegating | joda/src/main/java/com/timgroup/clocks/joda/JodaClock.java:105-107 | the adapter refuses a null clock with NullPointer |
| JodaClock.DelegatingReading | joda/src/main/java/com/timgroup/clocks/joda/JodaClock.java:109-122 | now() and millis() are the wrapped clock's millis, and the inherited getZone() hands back the wrapped clock's own zone |
| JodaClock.DelegatingWithZone | joda/src/main/java/com/timgroup/clocks/joda/JodaClock.java:124-132 | fails iff the zone cannot become a ZoneId; returns the adapter itself iff the wrapped clock returned itself, otherwise an adapter over the new clock |
| JodaClock.DelegatingReapplyOwnZone | joda/src/main/java/com/timgroup/clocks/joda/JodaClock.java:124-132 | if the wrapped clock returns itself for its own zone, the adapter returns itself for its own zone |
| JodaClock.Using | joda/src/main/java/com/timgroup/clocks/joda/JodaClock.java:31-36 | a Joda clock is returned as the same object, a plain clock is wrapped, and null is refused |
| JodaClock.UsingIdempotent | joda/src/main/java/com/timgroup/clocks/joda/JodaClock.java:31-36 | using applied to its own result returns that same object |
| JodaCompatibleClock.ReadInstant | joda/src/main/java/com/timgroup/clocks/joda/JodaCompatibleClock.java:25-33 | instant() is the whole-millisecond instant of the same global millis value millis() reports |
| JodaCompatibleClock.GetZone | joda/src/main/java/com/timgroup/clocks/joda/JodaCompatibleClock.java:63-66 | an overridden clock reports its own zone, the default clock the process default |
| JodaCompatibleClock.WithZone | joda/src/main/java/com/timgroup/clocks/joda/JodaCompatibleClock.java:20-61 | the result is always an overridden clock reporting the requested zone; it is the receiver itself iff the receiver is already overridden to that zone |
| JodaCompatibleClock.WithZoneKeepsTime | joda/src/main/java/com/timgroup/clocks/joda/JodaCompatibleClock.java:20-33 | a zone override never changes millis() or instant() |
| MutableClock.DurationOf | testing/src/main/java/com/timgroup/clocks/testing/MutableClock.java:9-11 | Duration.of accepts the exact units and days, scaling the amount by the unit's length; longer units fail with UnsupportedUnit |
| MutableClock.UnitHelpersAgree | testing/src/main/java/com/timgroup/clocks/testing/MutableClock.java:9-19 | bump(n, SECONDS) is bumpSeconds(n), bump(n, MILLIS) is bumpMillis(n), and bumpSeconds(n) is bumpMillis(1000 n) |
| MutableClock.BumpByAddsNoChecks | testing/src/main/java/com/timgroup/clocks/testing/MutableClock.java:9-11 | bump(n, unit) is bump of the scaled duration, or fails before bump with the state unchanged |
| MutableJodaClock.SecondsAreThousandMillis | joda/testing/src/main/java/com/timgroup/clocks/joda/testing/MutableJodaClock.java:7-13 | bumpSeconds(s) and bumpMillis(1000 s) are the same call |
| MutableJodaClock.HelpersAddNoChecks | joda/testing/src/main/java/com/timgroup/clocks/joda/testing/MutableJodaClock.java:7-15 | the helpers succeed or fail, with the same failure, exactly as bump does on the converted duration |

## Left out

- `ResetTime`'s `open`, `Resource.close`, `apply`, `run` and `supply` install and remove the clock as the process-wide Joda and JDK time source. That is global state, not clock logic.
- `ResetTime.to(year, month, day, hour, minute, zone)`: it needs calendar arithmetic in a named zone.
- `nowDateTime`, `nowLocal`, `today` and the tz database: the model has no calendar. Zone lookup by id maps a region id to the Joda zone of the same id and back. Unknown ids, which throw, are not modelled. Neither are named zones that are fixed, such as `Etc/GMT+5`.
- Process-default factories (`getDefault`, `createDefault`, `systemDefault`): they read JVM and Joda globals. The default zone appears only as an input where a modelled member uses it (`ResetTime.To`, `JodaCompatibleClock.GetZone`).
- Java `long` and `int` overflow, and the range limits of `Instant` and `Duration`: integers are unbounded. For example, `secs * 1000` in `bumpSeconds` and `multiplyExact` in `Duration.of` cannot overflow here.
- Null zone and clock arguments: the model always takes a value except where the source checks for null (the `Option` parameters). The source stores an unchecked null in the constructors of `ManualClock`, `LatchableClock`, `SupplierClock` and `SupplierJodaClock`, and in the views that `ManualClock`, `LatchableClock` and `ResetTime` build in `withZone`. A null stored there fails later, when it is used.
- ManualJodaClock.WithZone, SupplierClock.WithZone, SupplierJodaClock.WithZone, FixedJodaClock.WithZone, JodaCompatibleClock.WithZone: the model takes a zone, never null. In the source, `withZone(null)` on these clocks throws NullPointerException at once: from `equals` on the null argument, or, for `FixedJodaClock`, from the constructor's null check. The one exception is the default `JodaCompatibleClock`, which stores the null in a new override. `JodaClock.withZone(ZoneId)` and `toZoneId` also throw on null.
- ManualClock.Bump, ManualJodaClock.Bump, ManualJodaClock.AdvanceTo, LatchableJodaClock.Bump, LatchableClock.Bump, ResetTime.Bump, ResetTime.AdvanceTo: the model takes a duration or instant, never null. In the source, a null argument throws NullPointerException before anything changes.
- `MutableClock.bump(TemporalAmount)`: only durations are modelled, not periods. The unit table of `Duration.of` follows java.time's `ChronoUnit`.
- Concurrency: none of the classes synchronise, so the model has no threads.
- `toString`, build scripts and packaging.
- The identity of separately created objects: two views built by two `withZone` calls are distinct Java objects. In the model both are `ZoneView(z)`. The model records whether the receiver itself came back, not which new object did.

## Findings

| source | as written | input that shows it | evidently intended | confidence | as-written member | corrected member |
|---|---|---|---|---|---|---|
| testing/src/main/java/com/timgroup/clocks/testing/LatchableClock.java:88-91 | the guard `fixedInstant != null` throws "Clock must be latched" for a latched clock. An unlatched clock passes it and dereferences its null fixed instant. | a clock latched at 1 s and bumped by 1 s throws IllegalStateException. An unlatched clock bumped by 1 s throws NullPointerException. No bump can succeed. | the guard `fixedInstant == null`, as in joda/testing/src/main/java/com/timgroup/clocks/joda/testing/LatchableJodaClock.java:91. The exception message and testing/src/test/java/com/timgroup/clocks/testing/LatchableClockTest.java:54-61 describe the same rule. | high; not executed | LatchableClock.Bump, LatchableClock.LatchedBumpIsRefused | LatchableClock.BumpIntended |
