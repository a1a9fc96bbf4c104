/**
 What a worker's exit leads to, read off the moves taken: a worker's own moves
 after its exit was looked at, with those of the other workers in any order between.
 */
module SupervisorExits {
  import opened Wrappers
  import opened SupervisorHealth

  predicate Own(m: Move, i: nat) {
    !m.SignalShutdown? && m.worker == i
  }

  function OwnMoves(ms: seq<Move>, i: nat): seq<Move> {
    if ms == [] then []
    else if Own(ms[0], i) then [ms[0]] + OwnMoves(ms[1..], i)
    else OwnMoves(ms[1..], i)
  }

  /** What a worker signalled shutdown with. */
  function SignalsOf(log: seq<Signal>, i: nat): seq<Cause> {
    if log == [] then []
    else
      var before := SignalsOf(log[..|log| - 1], i);
      var last := log[|log| - 1];
      if last.FromWorker? && last.worker == i then before + [last.cause] else before
  }

  /** The supervisor of a worker has returned. */
  ghost predicate Stopped(s: System, i: nat) {
    forall m: Move :: Own(m, i) ==> !CanMove(s, m)
  }

  // ---- Steps ----

  lemma OneMoreSignal(log: seq<Signal>, x: Signal, i: nat)
    ensures SignalsOf(log + [x], i) ==
            if x.FromWorker? && x.worker == i then SignalsOf(log, i) + [x.cause] else SignalsOf(log, i)
  {
    assert (log + [x])[..|log|] == log;
  }

  /** What any move leaves of worker i and of the channels. */
  lemma MoveFrame(s: System, m: Move, i: nat)
    requires CanMove(s, m) && i < |s.workers|
    ensures var s' := Apply(s, m);
      && |s'.workers| == |s.workers| && s'.workers[i].policy == s.workers[i].policy
      && (!s.healthy ==> !s'.healthy) && (s.shutdown ==> s'.shutdown)
      && (!Own(m, i) ==> s'.workers[i] == s.workers[i])
      && SignalsOf(s'.log, i) ==
         if m == FailStep(i) && s.workers[i].phase.Unhealthy?
         then SignalsOf(s.log, i) + [s.workers[i].phase.cause]
         else SignalsOf(s.log, i)
  {
    if m.SignalShutdown? {
      OneMoreSignal(s.log, FromOutside, i);
    } else if m.FailStep? && s.workers[m.worker].phase.Unhealthy? {
      OneMoreSignal(s.log, FromWorker(m.worker, s.workers[m.worker].phase.cause), i);
    }
  }

  lemma {:induction false} LeftAlone(s: System, ms: seq<Move>, i: nat)
    requires ValidMoves(s, ms) && i < |s.workers| && OwnMoves(ms, i) == []
    ensures var t := Moves(s, ms);
      && |t.workers| == |s.workers| && t.workers[i] == s.workers[i]
      && SignalsOf(t.log, i) == SignalsOf(s.log, i)
      && (s.shutdown ==> t.shutdown)
    decreases |ms|
  {
    if ms != [] {
      MoveFrame(s, ms[0], i);
      LeftAlone(Apply(s, ms[0]), ms[1..], i);
    }
  }

  lemma {:induction false} InTwoParts(s: System, a: seq<Move>, b: seq<Move>)
    requires ValidMoves(s, a + b)
    ensures ValidMoves(s, a) && ValidMoves(Moves(s, a), b) && Moves(s, a + b) == Moves(Moves(s, a), b)
    decreases |a|
  {
    if a == [] {
      assert a + b == b;
    } else {
      assert (a + b)[1..] == a[1..] + b;
      InTwoParts(Apply(s, a[0]), a[1..], b);
    }
  }

  /** Until a worker stops it has signalled nothing; its policy is the one it was registered with. */
  lemma {:induction false} SilentUntilStopped(s: System, ms: seq<Move>, i: nat)
    requires ValidMoves(s, ms) && i < |s.workers| && (SignalsOf(s.log, i) == [] || s.workers[i].phase.Done?)
    ensures var t := Moves(s, ms);
      && |t.workers| == |s.workers| && t.workers[i].policy == s.workers[i].policy
      && (SignalsOf(t.log, i) == [] || t.workers[i].phase.Done?)
    decreases |ms|
  {
    if ms != [] {
      MoveFrame(s, ms[0], i);
      SilentUntilStopped(Apply(s, ms[0]), ms[1..], i);
    }
  }

  // ---- The loud path ----

  /** How far `fail` has come after a number of its writes. */
  predicate FailedSoFar(s: System, i: nat, cause: Cause, writes: nat) {
    && i < |s.workers|
    && var w := s.workers[i];
       match writes {
         case 0 => w.phase == Failing(cause) && SignalsOf(s.log, i) == []
         case 1 => w.phase == Marked(cause) && IsFailed(w) && SignalsOf(s.log, i) == []
         case 2 =>
           && w.phase == (if cause == NoPolicy(Completed) then Done else Unhealthy(cause))
           && IsFailed(w) && !s.healthy && SignalsOf(s.log, i) == []
         case 3 =>
           && w.phase == Done && cause != NoPolicy(Completed)
           && IsFailed(w) && !s.healthy && s.shutdown && SignalsOf(s.log, i) == [cause]
         case _ => false
       }
  }

  lemma FailWrite(s: System, m: Move, i: nat, cause: Cause, writes: nat)
    requires FailedSoFar(s, i, cause, writes) && CanMove(s, m)
    ensures FailedSoFar(Apply(s, m), i, cause, if Own(m, i) then writes + 1 else writes)
  {
    MoveFrame(s, m, i);
  }

  lemma {:induction false} FailWrites(s: System, ms: seq<Move>, i: nat, cause: Cause, writes: nat)
    requires FailedSoFar(s, i, cause, writes) && ValidMoves(s, ms)
    ensures FailedSoFar(Moves(s, ms), i, cause, writes + |OwnMoves(ms, i)|)
    decreases |ms|
  {
    if ms != [] {
      FailWrite(s, ms[0], i, cause, writes);
      FailWrites(Apply(s, ms[0]), ms[1..], i, cause, if Own(ms[0], i) then writes + 1 else writes);
    }
  }

  // ---- The way back ----

  /** Where a worker stands that is to be restarted, by its own moves since. */
  predicate Restarted(s: System, i: nat, own: seq<Move>) {
    && i < |s.workers|
    && (|own| <= 3 ==> SignalsOf(s.log, i) == [])
    && (|own| > 0 ==> own[0] == MarkBackoff(i))
    && (|own| > 1 ==> own[1] == Wake(i) || own == [MarkBackoff(i), GiveUp(i)])
    && (|own| > 2 ==> own[2] == Begin(i))
    && var w := s.workers[i];
       match |own| {
         case 0 => w.phase == Pausing && !IsFailed(w)
         case 1 => w.phase == Backoff && w.known && w.state == BackingOff
         case 2 =>
           && w.known && w.state == BackingOff
           && if own[1] == Wake(i) then w.phase == Ready else w.phase == Done && s.shutdown
         case 3 => w.phase == InRun && w.known && w.state == Running
         case _ => true
       }
  }

  lemma RestartMove(s: System, m: Move, i: nat, own: seq<Move>)
    requires Restarted(s, i, own) && CanMove(s, m)
    ensures Restarted(Apply(s, m), i, if Own(m, i) then own + [m] else own)
  {
    MoveFrame(s, m, i);
  }

  lemma {:induction false} RestartMoves(s: System, ms: seq<Move>, i: nat, own: seq<Move>)
    requires Restarted(s, i, own) && ValidMoves(s, ms)
    ensures Restarted(Moves(s, ms), i, own + OwnMoves(ms, i))
    decreases |ms|
  {
    if ms == [] {
      assert own + [] == own;
    } else {
      RestartMove(s, ms[0], i, own);
      RestartMoves(Apply(s, ms[0]), ms[1..], i, if Own(ms[0], i) then own + [ms[0]] else own);
      assert Own(ms[0], i) ==> own + ([ms[0]] + OwnMoves(ms[1..], i)) == (own + [ms[0]]) + OwnMoves(ms[1..], i);
    }
  }

  // ---- Exits ----

  /** A run that has ended is looked at, in whatever the others have made of the system meanwhile. */
  lemma ExitWaitsForItsLook(s: System, before: seq<Move>, i: nat, exit: Exit, between: seq<Move>)
    requires Fresh(s) && i < |s.workers|
    requires ValidMoves(s, before + [EndRun(i, exit)] + between) && OwnMoves(between, i) == []
    ensures var t := Moves(s, before + [EndRun(i, exit)] + between);
      && |t.workers| == |s.workers| && t.workers[i].phase == Exited(exit)
      && t.workers[i].policy == s.workers[i].policy && !IsFailed(t.workers[i]) && SignalsOf(t.log, i) == []
      && CanMove(t, Look(i, true)) && CanMove(t, Look(i, false))
  {
    var ended := before + [EndRun(i, exit)];
    InTwoParts(s, ended, between);
    InTwoParts(s, before, [EndRun(i, exit)]);
    SilentUntilStopped(s, before, i);
    var r := Moves(s, before);
    assert Moves(r, [EndRun(i, exit)]) == Apply(r, EndRun(i, exit));
    MoveFrame(r, EndRun(i, exit), i);
    LeftAlone(Moves(s, ended), between, i);
    HealthTellsTheTruth(s, ended + between);
    assert forall k :: 0 <= k < |s.workers| ==> WorkerOk(s, s.workers[k]);
    MovesKeepTruth(s, ended + between);
    assert WorkerOk(Moves(s, ended + between), Moves(s, ended + between).workers[i]);
  }

  /** A look outside shutdown that finds the worker to have failed, and what follows it. */
  lemma LoudLook(looked: System, i: nat, spent: bool, exit: Exit, after: seq<Move>)
    requires i < |looked.workers| && looked.workers[i].phase == Exited(exit) && SignalsOf(looked.log, i) == []
    requires !looked.shutdown && (looked.workers[i].policy ==> spent)
    requires ValidMoves(looked, [Look(i, spent)] + after)
    ensures var cause := if looked.workers[i].policy then Exhausted(exit) else NoPolicy(exit);
      FailedSoFar(Moves(looked, [Look(i, spent)] + after), i, cause, |OwnMoves(after, i)|)
  {
    var failing := Apply(looked, Look(i, spent));
    MoveFrame(looked, Look(i, spent), i);
    assert ([Look(i, spent)] + after)[1..] == after;
    FailWrites(failing, after, i, if looked.workers[i].policy then Exhausted(exit) else NoPolicy(exit), 0);
  }

  lemma QuietLook(looked: System, i: nat, after: seq<Move>)
    requires i < |looked.workers| && looked.workers[i].phase.Exited? && SignalsOf(looked.log, i) == []
    requires !looked.shutdown && looked.workers[i].policy && !IsFailed(looked.workers[i])
    requires ValidMoves(looked, [Look(i, false)] + after)
    ensures Restarted(Moves(looked, [Look(i, false)] + after), i, OwnMoves(after, i))
  {
    var pausing := Apply(looked, Look(i, false));
    MoveFrame(looked, Look(i, false), i);
    assert ([Look(i, false)] + after)[1..] == after;
    RestartMoves(pausing, after, i, []);
    assert [] + OwnMoves(after, i) == OwnMoves(after, i);
  }

  lemma OnTheWayBack(t: System, i: nat, own: seq<Move>)
    requires Restarted(t, i, own)
    ensures
      && (|own| >= 1 ==> own[0] == MarkBackoff(i))
      && (|own| >= 2 ==> own[1] == Wake(i) || (own[1] == GiveUp(i) && |own| == 2 && t.shutdown && Stopped(t, i)))
      && (|own| >= 3 ==> own[2] == Begin(i))
      && (|own| == 0 ==> CanMove(t, MarkBackoff(i)))
      && (|own| == 1 ==> CanMove(t, Wake(i)) && (CanMove(t, GiveUp(i)) <==> t.shutdown))
      && (|own| == 2 && own[1] == Wake(i) ==> CanMove(t, Begin(i)))
      && (|own| == 3 ==> CanMove(t, EndRun(i, Errored)))
      && (1 <= |own| <= 2 ==> t.workers[i].known && t.workers[i].state == BackingOff)
      && (|own| == 3 ==> t.workers[i].known && t.workers[i].state == Running)
      && (|own| <= 3 ==> !IsFailed(t.workers[i]) && SignalsOf(t.log, i) == [])
  {
  }

  lemma {:induction false} SameWorkers(s: System, ms: seq<Move>)
    requires ValidMoves(s, ms)
    ensures |Moves(s, ms).workers| == |s.workers|
    decreases |ms|
  {
    if ms != [] {
      SameWorkers(Apply(s, ms[0]), ms[1..]);
    }
  }

  /**
   A worker without a policy whose exit is looked at outside shutdown: its own
   moves from there are two writes after a plain `Ok(())` and three after
   anything else. The first marks it failed, the second drops health, the third
   signals shutdown, and with the last of them its supervisor returns.
   */
  lemma ExitWithoutPolicyIsLoud(s: System, before: seq<Move>, i: nat, exit: Exit, between: seq<Move>,
                                spent: bool, after: seq<Move>)
    requires Fresh(s) && i < |s.workers| && !s.workers[i].policy
    requires ValidMoves(s, before + [EndRun(i, exit)] + between) && OwnMoves(between, i) == []
    requires var looked := Moves(s, before + [EndRun(i, exit)] + between);
             !looked.shutdown && ValidMoves(looked, [Look(i, spent)] + after)
    ensures var t := Moves(Moves(s, before + [EndRun(i, exit)] + between), [Look(i, spent)] + after);
            var writes := |OwnMoves(after, i)|;
            var all := if exit == Completed then 2 else 3;
      && |t.workers| == |s.workers| && writes <= all
      && (writes >= 1 ==> IsFailed(t.workers[i]))
      && (writes >= 2 ==> !t.healthy)
      && (writes == 3 ==> t.shutdown)
      && SignalsOf(t.log, i) == (if writes == 3 then [NoPolicy(exit)] else [])
      && (writes < all ==> CanMove(t, FailStep(i)))
      && (writes == all ==> Stopped(t, i))
  {
    ExitWaitsForItsLook(s, before, i, exit, between);
    var looked := Moves(s, before + [EndRun(i, exit)] + between);
    SameWorkers(looked, [Look(i, spent)] + after);
    LoudLook(looked, i, spent, exit, after);
  }

  /** The same, with a policy that is spent or behind a panicking `enabled` check: always three writes. */
  lemma SpentPolicyIsLoud(s: System, before: seq<Move>, i: nat, exit: Exit, between: seq<Move>, after: seq<Move>)
    requires Fresh(s) && i < |s.workers| && s.workers[i].policy
    requires ValidMoves(s, before + [EndRun(i, exit)] + between) && OwnMoves(between, i) == []
    requires var looked := Moves(s, before + [EndRun(i, exit)] + between);
             !looked.shutdown && ValidMoves(looked, [Look(i, true)] + after)
    ensures var t := Moves(Moves(s, before + [EndRun(i, exit)] + between), [Look(i, true)] + after);
            var writes := |OwnMoves(after, i)|;
      && |t.workers| == |s.workers| && writes <= 3
      && (writes >= 1 ==> IsFailed(t.workers[i]))
      && (writes >= 2 ==> !t.healthy)
      && (writes == 3 ==> t.shutdown && Stopped(t, i))
      && SignalsOf(t.log, i) == (if writes == 3 then [Exhausted(exit)] else [])
      && (writes < 3 ==> CanMove(t, FailStep(i)))
  {
    ExitWaitsForItsLook(s, before, i, exit, between);
    var looked := Moves(s, before + [EndRun(i, exit)] + between);
    SameWorkers(looked, [Look(i, true)] + after);
    LoudLook(looked, i, true, exit, after);
  }

  lemma PanickingCheckIsLoud(s: System, before: seq<Move>, i: nat, after: seq<Move>)
    requires Fresh(s) && i < |s.workers|
    requires ValidMoves(s, before) && OwnMoves(before, i) == []
    requires ValidMoves(Moves(s, before), [CheckPanic(i)] + after)
    ensures var t := Moves(Moves(s, before), [CheckPanic(i)] + after);
            var writes := |OwnMoves(after, i)|;
      && |t.workers| == |s.workers| && writes <= 3
      && (writes >= 1 ==> IsFailed(t.workers[i]))
      && (writes >= 2 ==> !t.healthy)
      && (writes == 3 ==> t.shutdown && Stopped(t, i))
      && SignalsOf(t.log, i) == (if writes == 3 then [CheckPanicked] else [])
      && (writes < 3 ==> CanMove(t, FailStep(i)))
  {
    LeftAlone(s, before, i);
    var checking := Moves(s, before);
    var failing := Apply(checking, CheckPanic(i));
    MoveFrame(checking, CheckPanic(i), i);
    assert ([CheckPanic(i)] + after)[1..] == after;
    FailWrites(failing, after, i, CheckPanicked, 0);
    SameWorkers(failing, after);
  }

  /**
   A worker with restarts left: its own moves from there are to be shown as
   backing off, to wake, unless a shutdown makes it give up, and to run again. It
   is not failed on the way and signals nothing, and each next move can be taken.
   */
  lemma UnspentPolicyRunsAgain(s: System, before: seq<Move>, i: nat, exit: Exit, between: seq<Move>, after: seq<Move>)
    requires Fresh(s) && i < |s.workers| && s.workers[i].policy
    requires ValidMoves(s, before + [EndRun(i, exit)] + between) && OwnMoves(between, i) == []
    requires var looked := Moves(s, before + [EndRun(i, exit)] + between);
             !looked.shutdown && ValidMoves(looked, [Look(i, false)] + after)
    ensures var t := Moves(Moves(s, before + [EndRun(i, exit)] + between), [Look(i, false)] + after);
            var own := OwnMoves(after, i);
      && |t.workers| == |s.workers|
      && (|own| >= 1 ==> own[0] == MarkBackoff(i))
      && (|own| >= 2 ==> own[1] == Wake(i) || (own[1] == GiveUp(i) && |own| == 2 && t.shutdown && Stopped(t, i)))
      && (|own| >= 3 ==> own[2] == Begin(i))
      && (|own| == 0 ==> CanMove(t, MarkBackoff(i)))
      && (|own| == 1 ==> CanMove(t, Wake(i)) && (CanMove(t, GiveUp(i)) <==> t.shutdown))
      && (|own| == 2 && own[1] == Wake(i) ==> CanMove(t, Begin(i)))
      && (|own| == 3 ==> CanMove(t, EndRun(i, Errored)))
      && (1 <= |own| <= 2 ==> t.workers[i].known && t.workers[i].state == BackingOff)
      && (|own| == 3 ==> t.workers[i].known && t.workers[i].state == Running)
      && (|own| <= 3 ==> !IsFailed(t.workers[i]) && SignalsOf(t.log, i) == [])
  {
    ExitWaitsForItsLook(s, before, i, exit, between);
    var looked := Moves(s, before + [EndRun(i, exit)] + between);
    SameWorkers(looked, [Look(i, false)] + after);
    QuietLook(looked, i, after);
    OnTheWayBack(Moves(looked, [Look(i, false)] + after), i, OwnMoves(after, i));
  }

  /** An exit looked at in a shutdown ends the supervisor and changes nothing else. */
  lemma ExitInShutdownIsQuiet(s: System, before: seq<Move>, i: nat, exit: Exit, between: seq<Move>,
                              spent: bool, after: seq<Move>)
    requires Fresh(s) && i < |s.workers|
    requires ValidMoves(s, before + [EndRun(i, exit)] + between) && OwnMoves(between, i) == []
    requires var looked := Moves(s, before + [EndRun(i, exit)] + between);
             looked.shutdown && ValidMoves(looked, [Look(i, spent)] + after)
    ensures var looked := Moves(s, before + [EndRun(i, exit)] + between);
            var t := Moves(looked, [Look(i, spent)] + after);
      && |t.workers| == |looked.workers| && OwnMoves(after, i) == [] && Stopped(t, i)
      && t.workers[i].known == looked.workers[i].known && t.workers[i].state == looked.workers[i].state
      && !IsFailed(t.workers[i]) && SignalsOf(t.log, i) == []
      && (after == [] ==> t.healthy == looked.healthy && t.log == looked.log)
  {
    ExitWaitsForItsLook(s, before, i, exit, between);
    LastOwnMove(Moves(s, before + [EndRun(i, exit)] + between), Look(i, spent), i, after);
  }

  lemma LastOwnMove(s: System, m: Move, i: nat, after: seq<Move>)
    requires i < |s.workers| && Own(m, i) && SignalsOf(s.log, i) == [] && !s.workers[i].phase.Unhealthy?
    requires ValidMoves(s, [m] + after) && CanMove(s, m) && Apply(s, m).workers[i].phase.Done?
    ensures var t := Moves(s, [m] + after);
      && |t.workers| == |s.workers| && OwnMoves(after, i) == [] && Stopped(t, i)
      && t.workers[i] == Apply(s, m).workers[i] && SignalsOf(t.log, i) == []
  {
    MoveFrame(s, m, i);
    assert ([m] + after)[1..] == after;
    NothingAfterTheEnd(Apply(s, m), after, i);
    LeftAlone(Apply(s, m), after, i);
  }

  lemma {:induction false} NothingAfterTheEnd(s: System, ms: seq<Move>, i: nat)
    requires ValidMoves(s, ms) && i < |s.workers| && s.workers[i].phase.Done?
    ensures OwnMoves(ms, i) == []
    decreases |ms|
  {
    if ms != [] {
      MoveFrame(s, ms[0], i);
      NothingAfterTheEnd(Apply(s, ms[0]), ms[1..], i);
    }
  }

  /** A rejected worker stays recorded as disabled, takes no further move and signals nothing. */
  lemma DisabledIsLeftAlone(s: System, before: seq<Move>, i: nat, after: seq<Move>)
    requires Fresh(s) && i < |s.workers|
    requires ValidMoves(s, before) && OwnMoves(before, i) == []
    requires ValidMoves(Moves(s, before), [Disable(i)] + after)
    ensures var t := Moves(Moves(s, before), [Disable(i)] + after);
      && |t.workers| == |s.workers| && OwnMoves(after, i) == [] && Stopped(t, i)
      && t.workers[i].known && t.workers[i].state == Disabled && SignalsOf(t.log, i) == []
  {
    LeftAlone(s, before, i);
    LastOwnMove(Moves(s, before), Disable(i), i, after);
  }

  /** An enabled worker runs: its next move is to begin, and then its run may end or be cancelled. */
  lemma EnabledRuns(s: System, before: seq<Move>, i: nat, after: seq<Move>)
    requires Fresh(s) && i < |s.workers|
    requires ValidMoves(s, before) && OwnMoves(before, i) == []
    requires ValidMoves(Moves(s, before), [Enable(i)] + after)
    ensures var t, own := Moves(Moves(s, before), [Enable(i)] + after), OwnMoves(after, i);
      && |t.workers| == |s.workers|
      && (own == [] ==> CanMove(t, Begin(i)))
      && (own != [] ==> own[0] == Begin(i))
      && (|own| == 1 ==>
            && t.workers[i].known && t.workers[i].state == Running
            && CanMove(t, Cancelled(i)) && forall exit :: CanMove(t, EndRun(i, exit)))
      && (|own| > 1 ==> own[1].Cancelled? || own[1].EndRun?)
  {
    LeftAlone(s, before, i);
    var checking := Moves(s, before);
    MoveFrame(checking, Enable(i), i);
    assert ([Enable(i)] + after)[1..] == after;
    StartMoves(Apply(checking, Enable(i)), after, i, []);
    assert [] + OwnMoves(after, i) == OwnMoves(after, i);
  }

  /** Where an enabled worker stands, by its own moves since. */
  predicate Started(s: System, i: nat, own: seq<Move>) {
    && i < |s.workers|
    && (own == [] ==> s.workers[i].phase == Ready)
    && (own != [] ==> own[0] == Begin(i))
    && (|own| == 1 ==> s.workers[i].phase == InRun && s.workers[i].known && s.workers[i].state == Running)
    && (|own| > 1 ==> own[1].Cancelled? || own[1].EndRun?)
  }

  lemma {:induction false} StartMoves(s: System, ms: seq<Move>, i: nat, own: seq<Move>)
    requires Started(s, i, own) && ValidMoves(s, ms)
    ensures Started(Moves(s, ms), i, own + OwnMoves(ms, i)) && |Moves(s, ms).workers| == |s.workers|
    decreases |ms|
  {
    if ms == [] {
      assert own + [] == own;
    } else {
      MoveFrame(s, ms[0], i);
      StartMoves(Apply(s, ms[0]), ms[1..], i, if Own(ms[0], i) then own + [ms[0]] else own);
      assert Own(ms[0], i) ==> own + ([ms[0]] + OwnMoves(ms[1..], i)) == (own + [ms[0]]) + OwnMoves(ms[1..], i);
    }
  }

  lemma RunIsAwaited(s: System, before: seq<Move>, i: nat, between: seq<Move>)
    requires Fresh(s) && i < |s.workers| && OwnMoves(between, i) == []
    requires ValidMoves(s, before + [Begin(i)] + between)
    ensures var t := Moves(s, before + [Begin(i)] + between);
      && |t.workers| == |s.workers| && t.workers[i].phase == InRun
      && t.workers[i].known && t.workers[i].state == Running && SignalsOf(t.log, i) == []
  {
    var begun := before + [Begin(i)];
    InTwoParts(s, begun, between);
    InTwoParts(s, before, [Begin(i)]);
    SilentUntilStopped(s, before, i);
    var r := Moves(s, before);
    assert Moves(r, [Begin(i)]) == Apply(r, Begin(i));
    MoveFrame(r, Begin(i), i);
    LeftAlone(Moves(s, begun), between, i);
  }

  /** A cancelled run ends its supervisor and says nothing of the worker: it stays shown as running. */
  lemma CancelledSaysNothing(s: System, before: seq<Move>, i: nat, between: seq<Move>, after: seq<Move>)
    requires Fresh(s) && i < |s.workers| && OwnMoves(between, i) == []
    requires ValidMoves(s, before + [Begin(i)] + between)
    requires ValidMoves(Moves(s, before + [Begin(i)] + between), [Cancelled(i)] + after)
    ensures var t := Moves(Moves(s, before + [Begin(i)] + between), [Cancelled(i)] + after);
      && |t.workers| == |s.workers| && OwnMoves(after, i) == [] && Stopped(t, i)
      && t.workers[i].known && t.workers[i].state == Running && SignalsOf(t.log, i) == []
  {
    RunIsAwaited(s, before, i, between);
    LastOwnMove(Moves(s, before + [Begin(i)] + between), Cancelled(i), i, after);
  }

  /** The process can be told to shut down at any time; that alone changes no worker and no health. */
  lemma ShutdownFromOutside(s: System)
    ensures CanMove(s, SignalShutdown)
    ensures var t := Apply(s, SignalShutdown);
      t.shutdown && t.workers == s.workers && t.healthy == s.healthy && forall i :: SignalsOf(t.log, i) == SignalsOf(s.log, i)
  {
    forall i ensures SignalsOf(s.log + [FromOutside], i) == SignalsOf(s.log, i) {
      OneMoreSignal(s.log, FromOutside, i);
    }
  }

  // ---- The state map and the runs ----

  /** The state a worker's own moves last wrote. */
  function LastWritten(own: seq<Move>): Option<WorkerState> {
    if own == [] then None
    else
      match own[|own| - 1]
      case Begin(_) => Some(Running)
      case MarkBackoff(_) => Some(BackingOff)
      case FailStep(_) => Some(Failed)
      case Disable(_) => Some(Disabled)
      case _ => LastWritten(own[..|own| - 1])
  }

  predicate Shows(w: Worker, state: Option<WorkerState>) {
    if w.known then state == Some(w.state) else state == None
  }

  lemma MoveShowsTheLastWrite(s: System, m: Move, own: seq<Move>)
    requires CanMove(s, m) && !m.SignalShutdown? && WorkerOk(s, s.workers[m.worker])
    requires Shows(s.workers[m.worker], LastWritten(own))
    ensures Shows(Apply(s, m).workers[m.worker], LastWritten(own + [m]))
  {
    assert (own + [m])[..|own|] == own;
  }

  lemma {:induction false} MapShowsTheLastWrite(s: System, ms: seq<Move>, i: nat, own: seq<Move>)
    requires ValidMoves(s, ms) && i < |s.workers| && Truthful(s) && Shows(s.workers[i], LastWritten(own))
    ensures var t := Moves(s, ms);
      |t.workers| == |s.workers| && Shows(t.workers[i], LastWritten(own + OwnMoves(ms, i)))
    decreases |ms|
  {
    if ms == [] {
      assert own + [] == own;
    } else {
      var s', rest := Apply(s, ms[0]), ms[1..];
      var next := if Own(ms[0], i) then own + [ms[0]] else own;
      assert own + OwnMoves(ms, i) == next + OwnMoves(rest, i);
      MoveFrame(s, ms[0], i);
      MoveKeepsTruth(s, ms[0]);
      assert Shows(s'.workers[i], LastWritten(next)) by {
        assert WorkerOk(s, s.workers[i]);
        if Own(ms[0], i) {
          MoveShowsTheLastWrite(s, ms[0], own);
        }
      }
      MapShowsTheLastWrite(s', rest, i, next);
    }
  }

  /** After any run the state map shows of a worker what its own moves last wrote. */
  lemma StatesAreTheLastWrites(s: System, ms: seq<Move>, i: nat)
    requires Fresh(s) && ValidMoves(s, ms) && i < |s.workers|
    ensures var t := Moves(s, ms);
      |t.workers| == |s.workers| && Shows(t.workers[i], LastWritten(OwnMoves(ms, i)))
  {
    assert forall k :: 0 <= k < |s.workers| ==> WorkerOk(s, s.workers[k]);
    MapShowsTheLastWrite(s, ms, i, []);
    assert [] + OwnMoves(ms, i) == OwnMoves(ms, i);
  }

  /** The runs a worker begins in a shutdown. */
  function BeginsInShutdown(s: System, ms: seq<Move>, i: nat): nat
    requires ValidMoves(s, ms)
    decreases |ms|
  {
    if ms == [] then 0
    else (if ms[0] == Begin(i) && s.shutdown then 1 else 0) + BeginsInShutdown(Apply(s, ms[0]), ms[1..], i)
  }

  lemma {:induction false} BeginsAreCounted(s: System, ms: seq<Move>, i: nat)
    requires ValidMoves(s, ms) && i < |s.workers|
    ensures var t := Moves(s, ms);
      |t.workers| == |s.workers| && t.workers[i].runsInShutdown == s.workers[i].runsInShutdown + BeginsInShutdown(s, ms, i)
    decreases |ms|
  {
    if ms != [] {
      MoveFrame(s, ms[0], i);
      BeginsAreCounted(Apply(s, ms[0]), ms[1..], i);
    }
  }

  /** A worker begins at most one run in a shutdown: the one its wake-up or check had already led to. */
  lemma OneRunInShutdown(s: System, ms: seq<Move>, i: nat)
    requires Fresh(s) && ValidMoves(s, ms) && i < |s.workers|
    ensures BeginsInShutdown(s, ms, i) <= 1
  {
    BeginsAreCounted(s, ms, i);
    HealthTellsTheTruth(s, ms);
  }
}
