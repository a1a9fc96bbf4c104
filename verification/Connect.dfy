/**
 Connecting to the broker with retries under a hard deadline. Times are whole
 nanoseconds since the first attempt and timers fire exactly when due.
 */
module Connect {
  import opened Durations
  import opened Wrappers

  const MAX_BACKOFF_SHIFT: nat := 16

  datatype Settings = Settings(deadline: nat, attemptTimeout: nat, minBackoff: nat, maxBackoff: nat)

  /** The builder raises the upper backoff to the lower one. */
  type Connector = c: Settings | c.minBackoff <= c.maxBackoff witness Settings(0, 0, 0, 0)

  function Min(a: nat, b: nat): nat {
    if a <= b then a else b
  }

  /** The ramp at an attempt; a product too large to represent is over the cap anyway. */
  function Capped(c: Connector, attempt: nat): nat {
    Min(c.minBackoff * Pow2(Min(if attempt == 0 then 0 else attempt - 1, MAX_BACKOFF_SHIFT)), c.maxBackoff)
  }

  function Spread(span: nat, entropy: U64): nat {
    var nanos := Min(span, U64_MAX);
    if nanos == 0 then 0 else entropy % nanos
  }

  function Backoff(c: Connector, attempt: nat, entropy: U64): nat {
    var half := Capped(c, attempt) / 2;
    half + Spread(half, entropy)
  }

  /** A backoff is at least half the ramp and stays under the whole of it. */
  lemma BackoffStaysOnTheRamp(c: Connector, attempt: nat, entropy: U64)
    ensures Capped(c, attempt) / 2 <= Backoff(c, attempt, entropy) <= Capped(c, attempt)
    ensures Capped(c, attempt) > 1 ==> Backoff(c, attempt, entropy) < Capped(c, attempt)
    ensures c.minBackoff <= Capped(c, attempt) <= c.maxBackoff
  {
    GrowsByAFactor(c.minBackoff, Pow2(Min(if attempt == 0 then 0 else attempt - 1, MAX_BACKOFF_SHIFT)));
  }

  /**
   The whole window is drawn from: an attempt can be followed by every delay from
   half the ramp up to twice that half, as far as 64 bits of entropy reach, and by
   no other.
   */
  lemma BackoffDrawsFromTheWindow(c: Connector, attempt: nat, delay: nat)
    ensures var half := Capped(c, attempt) / 2;
      (exists entropy: U64 :: Backoff(c, attempt, entropy) == delay)
      <==> if half == 0 then delay == 0 else half <= delay < half + Min(half, U64_MAX)
  {
    var half := Capped(c, attempt) / 2;
    if half == 0 {
      assert Backoff(c, attempt, 0) == 0;
    } else if half <= delay < half + Min(half, U64_MAX) {
      assert Backoff(c, attempt, delay - half) == delay;
    }
  }

  /** The ramp starts at the lower backoff, doubles with every attempt under the upper one, and stops after the 17th. */
  lemma RampDoubles(c: Connector, attempt: nat)
    requires attempt >= 1
    ensures Capped(c, 0) == Capped(c, 1) == c.minBackoff
    ensures Capped(c, attempt + 1) ==
            if attempt > MAX_BACKOFF_SHIFT then Capped(c, attempt) else Min(2 * Capped(c, attempt), c.maxBackoff)
  {
    assert Pow2(0) == 1;
    if attempt <= MAX_BACKOFF_SHIFT {
      var factor := Pow2(attempt - 1);
      assert Pow2(attempt) == 2 * factor;
      assert c.minBackoff * (2 * factor) == 2 * (c.minBackoff * factor);
    }
  }

  // ------------------------------------------------------------------------
  // Runs
  // ------------------------------------------------------------------------

  datatype Ending = Connected | Refused(error: string) | TimedOut

  /** One pass of the loop; `entropy` is the draw its backoff would use. */
  datatype Attempt = Attempt(start: nat, took: nat, ending: Ending, entropy: U64)

  function End(a: Attempt): nat {
    a.start + a.took
  }

  /** An attempt has the rest of the deadline or the attempt timeout, whichever is less; a time-out takes all of it. */
  predicate IsAttempt(c: Connector, a: Attempt) {
    && a.start < c.deadline
    && a.took <= Min(c.deadline - a.start, c.attemptTimeout)
    && (a.ending.TimedOut? ==> a.took == Min(c.deadline - a.start, c.attemptTimeout))
  }

  /** What the loop can have gone through, whatever each attempt did. */
  predicate IsRun(c: Connector, history: seq<Attempt>) {
    history != [] ==>
      var n := |history| - 1;
      && IsAttempt(c, history[n])
      && (if n == 0 then history[n].start == 0 else Follows(c, history[n - 1], n, history[n]))
      && IsRun(c, history[..n])
  }

  /** The attempt after the `n`-th, which failed, starts when its backoff is over. */
  predicate Follows(c: Connector, before: Attempt, n: nat, after: Attempt) {
    !before.ending.Connected? && after.start == End(before) + Backoff(c, n, before.entropy)
  }

  function MostRecentError(history: seq<Attempt>): Option<string> {
    if history == [] then None
    else
      var last := history[|history| - 1].ending;
      if last.Refused? then Some(last.error) else MostRecentError(history[..|history| - 1])
  }

  /** The source is the error of the last attempt that finished with one, and absent exactly when none did. */
  lemma {:induction false} SourceIsTheLastRefusal(history: seq<Attempt>)
    ensures MostRecentError(history) == None <==> forall i :: 0 <= i < |history| ==> !history[i].ending.Refused?
    ensures MostRecentError(history).Some? ==>
              exists k :: 0 <= k < |history| && history[k].ending == Refused(MostRecentError(history).value)
                          && forall i :: k < i < |history| ==> !history[i].ending.Refused?
  {
    if history != [] {
      var n, before := |history| - 1, history[..|history| - 1];
      SourceIsTheLastRefusal(before);
      if !history[n].ending.Refused? && MostRecentError(before).Some? {
        var k :| 0 <= k < n && before[k].ending == Refused(MostRecentError(before).value)
                 && forall i :: k < i < n ==> !before[i].ending.Refused?;
        assert history[k] == before[k];
      }
    }
  }

  /** What the broker would do with a dial left alone, and the draw that follows it. */
  datatype Dial = Dial(takes: nat, refusal: Option<string>, entropy: U64)

  /** A dial begun at `start` as the loop sees it, which waits for it only so long. */
  function AttemptOf(c: Connector, dial: Dial, start: nat): (a: Attempt)
    requires start < c.deadline
    ensures IsAttempt(c, a)
  {
    var limit := Min(c.deadline - start, c.attemptTimeout);
    var ending :=
      if dial.takes > limit then TimedOut
      else if dial.refusal.Some? then Refused(dial.refusal.value)
      else Connected;
    Attempt(start, Min(dial.takes, limit), ending, dial.entropy)
  }

  /** The attempts are the dials in turn. */
  predicate Plays(c: Connector, dials: seq<Dial>, history: seq<Attempt>) {
    history != [] ==>
      var n := |history| - 1;
      && n < |dials| && history[n].start < c.deadline
      && history[n] == AttemptOf(c, dials[n], history[n].start)
      && Plays(c, dials, history[..n])
  }

  /**
   Every attempt is its dial, cut off at whichever comes first of the attempt
   timeout and the deadline: it times out iff the dial takes longer, and otherwise
   connects or is refused as the dial is, in the dial's own time.
   */
  lemma {:induction false} AttemptsAreTheirDials(c: Connector, dials: seq<Dial>, history: seq<Attempt>, i: nat)
    requires Plays(c, dials, history) && i < |history|
    ensures |history| <= |dials| && history[i].start < c.deadline && End(history[i]) <= c.deadline
    ensures var a, dial := history[i], dials[i];
      && a.took <= c.attemptTimeout && a.entropy == dial.entropy
      && (a.ending.TimedOut? <==> a.start + dial.takes > c.deadline || dial.takes > c.attemptTimeout)
      && (a.ending.TimedOut? ==> End(a) == c.deadline || a.took == c.attemptTimeout)
      && (!a.ending.TimedOut? ==> a.took == dial.takes)
      && (a.ending.Connected? ==> dial.refusal.None?)
      && (a.ending.Refused? ==> dial.refusal == Some(a.ending.error))
  {
    if i < |history| - 1 {
      AttemptsAreTheirDials(c, dials, history[..|history| - 1], i);
    }
  }

  /** In any run the attempts are in time, and each failed one is followed after a backoff of its own. */
  lemma {:induction false} RunsKeepTime(c: Connector, history: seq<Attempt>, i: nat)
    requires IsRun(c, history) && i < |history|
    ensures var a := history[i];
      && a.start < c.deadline && End(a) <= c.deadline && a.took <= c.attemptTimeout
      && (a.ending.TimedOut? ==> End(a) == c.deadline || a.took == c.attemptTimeout)
      && (i + 1 < |history| ==>
            && !a.ending.Connected?
            && End(a) + Capped(c, i + 1) / 2 <= history[i + 1].start <= End(a) + Capped(c, i + 1))
  {
    var n := |history| - 1;
    if i + 1 < |history| {
      if i + 1 == n {
        BackoffStaysOnTheRamp(c, n, history[i].entropy);
        assert IsRun(c, history[..n]) && history[..n][i] == history[i];
      } else {
        assert history[..n][i + 1] == history[i + 1];
      }
      RunsKeepTime(c, history[..n], i);
    }
  }

  datatype Outcome =
    | Client(attempts: nat)
    | Unreachable(attempts: nat, elapsed: nat, source: Option<string>)
    | StillTrying(next: nat)

  /**
   The loop over the dials, up to the last one given. It gives up only when the
   next attempt would start at or past the deadline, and never returns past it.
   */
  method ConnectWithRetry(c: Connector, dials: seq<Dial>) returns (outcome: Outcome, history: seq<Attempt>)
    ensures IsRun(c, history) && Plays(c, dials, history)
    ensures match outcome
            case Client(attempts) =>
              && attempts == |history| > 0 && history[attempts - 1].ending.Connected?
              && End(history[attempts - 1]) <= c.deadline
            case Unreachable(attempts, elapsed, source) =>
              && attempts == |history| && elapsed <= c.deadline && source == MostRecentError(history)
              && if attempts == 0 then elapsed == 0 && c.deadline == 0
                 else && elapsed == End(history[attempts - 1])
                      && elapsed + Backoff(c, attempts, history[attempts - 1].entropy) >= c.deadline
            case StillTrying(next) =>
              && |history| == |dials| && next < c.deadline
              && (history != [] ==> !history[|history| - 1].ending.Connected?)
  {
    var now, attempts, lastError := 0, 0, None;
    history := [];
    while true
      invariant attempts == |history| <= |dials|
      invariant IsRun(c, history) && Plays(c, dials, history)
      invariant if history == [] then now == 0
                else && !history[attempts - 1].ending.Connected?
                     && now == End(history[attempts - 1]) + Backoff(c, attempts, history[attempts - 1].entropy) < c.deadline
      invariant lastError == MostRecentError(history)
      decreases |dials| - attempts
    {
      if now >= c.deadline {
        return Unreachable(attempts, now, lastError), history;
      }
      if attempts == |dials| {
        return StillTrying(now), history;
      }
      var attempt := AttemptOf(c, dials[attempts], now);
      attempts := attempts + 1;
      assert (history + [attempt])[..|history|] == history;
      history := history + [attempt];
      if attempt.ending.Connected? {
        return Client(attempts), history;
      }
      var source := if attempt.ending.Refused? then Some(attempt.ending.error) else None;
      var delay := Backoff(c, attempts, attempt.entropy);
      lastError := if source.Some? then source else lastError;
      if End(attempt) + delay >= c.deadline {
        return Unreachable(attempts, End(attempt), lastError), history;
      }
      now := End(attempt) + delay;
    }
  }

  // ------------------------------------------------------------------------
  // Termination
  // ------------------------------------------------------------------------

  /** A run is short enough for its attempts to be spaced by half the least backoff. */
  lemma RunsAreSpacedUnderTheDeadline(c: Connector, history: seq<Attempt>)
    requires IsRun(c, history) && history != []
    ensures (|history| - 1) * (c.minBackoff / 2) < c.deadline
  {
    AttemptsAreSpaced(c, history);
  }

  lemma {:induction false} AttemptsAreSpaced(c: Connector, history: seq<Attempt>)
    requires IsRun(c, history) && history != []
    ensures history[|history| - 1].start >= (|history| - 1) * (c.minBackoff / 2)
  {
    var n := |history| - 1;
    if n > 0 {
      AttemptsAreSpaced(c, history[..n]);
      FollowsLater(c, history[n - 1], n, history[n]);
      OneMoreGap(n, c.minBackoff / 2);
    }
  }

  lemma OneMoreGap(n: nat, gap: nat)
    requires n > 0
    ensures n * gap == (n - 1) * gap + gap
  {
  }

  lemma FollowsLater(c: Connector, before: Attempt, n: nat, after: Attempt)
    requires Follows(c, before, n, after)
    ensures after.start >= before.start + c.minBackoff / 2
  {
    BackoffStaysOnTheRamp(c, n, before.entropy);
  }

  /** Past the ramp every backoff is at least a nanosecond, when the settings allow one at all. */
  predicate BacksOff(c: Connector) {
    c.minBackoff > 0 && c.maxBackoff >= 2
  }

  lemma TopOfTheRamp(c: Connector, attempt: nat, entropy: U64)
    requires attempt > MAX_BACKOFF_SHIFT && BacksOff(c)
    ensures Backoff(c, attempt, entropy) >= 1
  {
    var top := Pow2(MAX_BACKOFF_SHIFT);
    assert top == 2 * Pow2(15);
    GrowsByAFactor(top, c.minBackoff);
    assert Capped(c, attempt) == Min(c.minBackoff * top, c.maxBackoff);
  }

  lemma {:induction false} AttemptsPastTheRamp(c: Connector, history: seq<Attempt>)
    requires IsRun(c, history) && |history| > MAX_BACKOFF_SHIFT && BacksOff(c)
    ensures history[|history| - 1].start >= |history| - 1 - MAX_BACKOFF_SHIFT
  {
    var n := |history| - 1;
    if n > MAX_BACKOFF_SHIFT {
      AttemptsPastTheRamp(c, history[..n]);
      TopOfTheRamp(c, n, history[n - 1].entropy);
    }
  }

  /** A run of `n` refusals that take no time. */
  function InstantRefusals(n: nat): (history: seq<Attempt>)
    ensures |history| == n
  {
    if n == 0 then [] else InstantRefusals(n - 1) + [Attempt(0, 0, Refused("refused"), 0)]
  }

  lemma {:induction false} InstantRefusalsCanGoOn(c: Connector, n: nat)
    requires c.deadline > 0 && !BacksOff(c)
    ensures IsRun(c, InstantRefusals(n))
  {
    if n > 0 {
      InstantRefusalsCanGoOn(c, n - 1);
      assert InstantRefusals(n)[..n - 1] == InstantRefusals(n - 1);
      NothingToBackOff(c, n - 1);
    }
  }

  lemma NothingToBackOff(c: Connector, attempt: nat)
    requires !BacksOff(c)
    ensures Backoff(c, attempt, 0) == 0
  {
    assert Capped(c, attempt) <= 1;
  }

  ghost predicate EndsWithin(c: Connector, attempts: nat) {
    forall history :: IsRun(c, history) ==> |history| <= attempts
  }

  /**
   The loop is bound to end exactly when there is no time at all or the settings
   back off: without a nanosecond of backoff, refusals that take no time go on
   for any number of attempts.
   */
  lemma LoopEndsIffItBacksOff(c: Connector)
    ensures (exists n: nat :: EndsWithin(c, n)) <==> c.deadline == 0 || BacksOff(c)
  {
    if c.deadline == 0 || BacksOff(c) {
      var bound := c.deadline + MAX_BACKOFF_SHIFT;
      forall history | IsRun(c, history) ensures |history| <= bound {
        if history != [] {
          if |history| > MAX_BACKOFF_SHIFT {
            AttemptsPastTheRamp(c, history);
          }
        }
      }
      assert EndsWithin(c, bound);
    } else {
      forall n: nat ensures !EndsWithin(c, n) {
        InstantRefusalsCanGoOn(c, n + 1);
      }
    }
  }
}
