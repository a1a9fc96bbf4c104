/**
 The restart policy of a supervised worker: when an exit escalates, and how long
 each backoff may be. Durations are whole nanoseconds.
 */
module RestartPolicy {
  import opened Durations

  const U32_MAX: nat := 0xFFFF_FFFF
  const NANOS_PER_MILLI: nat := 1_000_000
  /** The largest `Duration`: u64 seconds and 999,999,999 nanoseconds. */
  const DURATION_MAX: nat := 0x1_0000_0000_0000_0000 * 1_000_000_000 - 1

  type U32 = n: nat | n <= U32_MAX
  type Nanos = n: nat | n <= DURATION_MAX

  datatype Policy = Policy(minBackoff: Nanos, maxBackoff: Nanos, maxRestarts: U32)

  /** The larger of the two bounds. */
  function Cap(p: Policy): (cap: Nanos)
    ensures cap >= p.minBackoff && cap >= p.maxBackoff && (cap == p.minBackoff || cap == p.maxBackoff)
  {
    if p.maxBackoff > p.minBackoff then p.maxBackoff else p.minBackoff
  }

  function SaturatingMul(d: Nanos, factor: nat): Nanos {
    if d * factor <= DURATION_MAX then d * factor else DURATION_MAX
  }

  function Doublings(attempt: nat): nat {
    if attempt == 0 then 0 else if attempt - 1 < 31 then attempt - 1 else 31
  }

  function Delay(p: Policy, attempt: nat): Nanos {
    var raw := SaturatingMul(p.minBackoff, Pow2(Doublings(attempt)));
    if raw <= Cap(p) then raw else Cap(p)
  }

  /** `hash` is the process's draw for this worker and attempt. */
  function Jittered(delay: Nanos, hash: U64): nat {
    var millis := delay / NANOS_PER_MILLI;
    var half := (if millis <= U64_MAX then millis else U64_MAX) / 2;
    if half == 0 then delay else (half + hash % (half + 1)) * NANOS_PER_MILLI
  }

  /** A backoff is the doubling ramp, never under `minBackoff` and never over the cap. */
  lemma DelayBounds(p: Policy, attempt: nat)
    ensures p.minBackoff <= Delay(p, attempt) <= Cap(p)
    ensures p.minBackoff * Pow2(Doublings(attempt)) <= Cap(p) ==>
              Delay(p, attempt) == p.minBackoff * Pow2(Doublings(attempt))
    ensures p.minBackoff * Pow2(Doublings(attempt)) >= Cap(p) ==> Delay(p, attempt) == Cap(p)
  {
  }

  function Ramp(p: Policy, factor: nat): nat {
    if p.minBackoff * factor <= Cap(p) then p.minBackoff * factor else Cap(p)
  }

  /** A product too large for a `Duration` is over the cap anyway. */
  lemma DelayIsTheRamp(p: Policy, attempt: nat)
    ensures Delay(p, attempt) == Ramp(p, Pow2(Doublings(attempt)))
  {
  }

  lemma RampOfTwice(p: Policy, factor: nat)
    ensures Ramp(p, 2 * factor) == if 2 * Ramp(p, factor) <= Cap(p) then 2 * Ramp(p, factor) else Cap(p)
  {
    assert p.minBackoff * (2 * factor) == 2 * (p.minBackoff * factor);
  }

  /** The first delay is the floor, each next one is twice the last under the cap, and after the 32nd nothing grows. */
  lemma DelayDoubles(p: Policy, attempt: nat)
    requires attempt >= 1
    ensures Delay(p, 1) == p.minBackoff
    ensures attempt < 32 ==>
              Delay(p, attempt + 1) == if 2 * Delay(p, attempt) <= Cap(p) then 2 * Delay(p, attempt) else Cap(p)
    ensures attempt >= 32 ==> Delay(p, attempt + 1) == Delay(p, attempt)
  {
    DelayIsTheRamp(p, 1);
    assert Ramp(p, 1) == p.minBackoff;
    if attempt < 32 {
      DelayIsTheRamp(p, attempt);
      DelayIsTheRamp(p, attempt + 1);
      RampOfTwice(p, Pow2(attempt - 1));
    }
  }

  /** The sleep lies between half and all of the delay, in whole milliseconds; a delay under 2ms is slept as it is. */
  lemma JitterBounds(delay: Nanos, hash: U64)
    ensures var sleep := Jittered(delay, hash);
      && sleep <= delay
      && (delay < 2 * NANOS_PER_MILLI ==> sleep == delay)
      && (delay / NANOS_PER_MILLI <= U64_MAX ==> 2 * sleep + NANOS_PER_MILLI >= delay / NANOS_PER_MILLI * NANOS_PER_MILLI)
  {
  }

  // ------------------------------------------------------------------------
  // Escalation
  // ------------------------------------------------------------------------

  /** The `attempt` variable after the runs, each given by how long it lasted. */
  function Attempt(p: Policy, runs: seq<nat>): (a: nat)
    ensures a <= U32_MAX
  {
    if runs == [] then 0
    else
      var before := if runs[|runs| - 1] >= Cap(p) then 0 else Attempt(p, runs[..|runs| - 1]);
      if before < U32_MAX then before + 1 else U32_MAX
  }

  /** The rule as promised: more exits than restarts allowed, the last `maxRestarts` of them from rapid runs. */
  ghost predicate Exhausts(p: Policy, runs: seq<nat>) {
    && |runs| >= p.maxRestarts + 1
    && forall k :: |runs| - p.maxRestarts <= k < |runs| ==> runs[k] < Cap(p)
  }

  /** How many runs at the end were rapid. */
  function Streak(p: Policy, runs: seq<nat>): (n: nat)
    ensures n <= |runs|
    ensures forall k :: |runs| - n <= k < |runs| ==> runs[k] < Cap(p)
    ensures n < |runs| ==> runs[|runs| - n - 1] >= Cap(p)
  {
    if runs == [] || runs[|runs| - 1] >= Cap(p) then 0 else 1 + Streak(p, runs[..|runs| - 1])
  }

  lemma {:induction false} AttemptIsTheStreak(p: Policy, runs: seq<nat>)
    ensures var count := if Streak(p, runs) == |runs| then |runs| else Streak(p, runs) + 1;
      Attempt(p, runs) == if count <= U32_MAX then count else U32_MAX
  {
    if runs != [] {
      AttemptIsTheStreak(p, runs[..|runs| - 1]);
    }
  }

  /** The counter passes the bound exactly when the rule holds, except that the largest bound is never passed. */
  lemma EscalationIsExact(p: Policy, runs: seq<nat>)
    ensures Attempt(p, runs) > p.maxRestarts <==> Exhausts(p, runs) && p.maxRestarts < U32_MAX
  {
    AttemptIsTheStreak(p, runs);
    var streak := Streak(p, runs);
    assert streak < |runs| ==> runs[|runs| - streak - 1] >= Cap(p);
  }

  datatype Outcome = Loud(exits: nat, sleeps: seq<nat>) | StillRestarting(sleeps: seq<nat>)

  /** One sleep after each exit, the backoff of the count reached there. */
  ghost predicate SleptAfterEach(p: Policy, runs: seq<nat>, hashes: seq<U64>, sleeps: seq<nat>, exits: nat)
    requires |hashes| == |runs| && exits <= |runs|
  {
    && |sleeps| == exits
    && forall n :: 0 <= n < exits ==> sleeps[n] == Jittered(Delay(p, Attempt(p, runs[..n + 1])), hashes[n])
  }

  /**
   The loop of `supervise` over the runs of a worker that exits before shutdown:
   it takes the loud path at the first exit the rule names and sleeps after
   every earlier one.
   */
  method Supervise(p: Policy, runs: seq<nat>, hashes: seq<U64>) returns (outcome: Outcome)
    requires |hashes| == |runs|
    ensures outcome.Loud? ==>
              && 1 <= outcome.exits <= |runs| && p.maxRestarts < U32_MAX
              && Exhausts(p, runs[..outcome.exits])
              && (forall n :: 0 <= n < outcome.exits ==> !Exhausts(p, runs[..n]))
              && SleptAfterEach(p, runs, hashes, outcome.sleeps, outcome.exits - 1)
    ensures outcome.StillRestarting? ==>
              && (p.maxRestarts == U32_MAX || forall n :: 0 <= n <= |runs| ==> !Exhausts(p, runs[..n]))
              && SleptAfterEach(p, runs, hashes, outcome.sleeps, |runs|)
  {
    var attempt := 0;
    var sleeps: seq<nat> := [];
    for i := 0 to |runs|
      invariant attempt == Attempt(p, runs[..i])
      invariant p.maxRestarts == U32_MAX || forall n :: 0 <= n <= i ==> !Exhausts(p, runs[..n])
      invariant SleptAfterEach(p, runs, hashes, sleeps, i)
    {
      assert runs[..i + 1][..i] == runs[..i];
      if runs[i] >= Cap(p) {
        attempt := 0;
      }
      attempt := if attempt < U32_MAX then attempt + 1 else U32_MAX;
      EscalationIsExact(p, runs[..i + 1]);
      if attempt > p.maxRestarts {
        return Loud(i + 1, sleeps);
      }
      sleeps := sleeps + [Jittered(Delay(p, attempt), hashes[i])];
    }
    assert runs[..|runs|] == runs;
    outcome := StillRestarting(sleeps);
  }
}
