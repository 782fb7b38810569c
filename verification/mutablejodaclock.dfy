/**
  `MutableJodaClock`: a standalone mutation interface for Joda clocks; no clock of the
  library implements it. Its two helpers are defaults written over the one primitive
  `bump(Duration)`, given here as a function from a state and a millisecond duration
  to the outcome of the call, so that any clock's own helpers can be compared with
  what these defaults would compute over its `bump`.
 */
module MutableJodaClock {
  import opened Time

  /** `bumpSeconds(secs)`: `bump(Duration.standardSeconds(secs))`. */
  function BumpSeconds<S>(bump: (S, JodaDuration) -> Result<S>, s: S, secs: int): Result<S> {
    bump(s, secs * MillisPerSecond)
  }

  /** `bumpMillis(millis)`: `bump(Duration.millis(millis))`. */
  function BumpMillis<S>(bump: (S, JodaDuration) -> Result<S>, s: S, millis: int): Result<S> {
    bump(s, millis)
  }

  /** Bumping by some seconds and by a thousand times as many milliseconds are the same
      call, whatever the implementation of `bump`. */
  lemma SecondsAreThousandMillis<S>(bump: (S, JodaDuration) -> Result<S>, s: S, secs: int)
    ensures BumpSeconds(bump, s, secs) == BumpMillis(bump, s, 1000 * secs)
  {
  }

  /** The helpers add no checks of their own: each succeeds exactly when `bump` does on
      the converted duration, and fails with the same failure. */
  lemma HelpersAddNoChecks<S>(bump: (S, JodaDuration) -> Result<S>, s: S, n: int)
    ensures BumpMillis(bump, s, n).Ok? <==> bump(s, n).Ok?
    ensures BumpSeconds(bump, s, n).Ok? <==> bump(s, n * 1000).Ok?
    ensures BumpMillis(bump, s, n).Err? ==> BumpMillis(bump, s, n).failure == bump(s, n).failure
    ensures BumpSeconds(bump, s, n).Err? ==> BumpSeconds(bump, s, n).failure == bump(s, n * 1000).failure
  {
  }
}
