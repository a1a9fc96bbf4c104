/**
 Many supervisors at once: the shared state map, the health channel and the
 shutdown channel, each write its own move. Worker names are distinct, so a
 worker is its number.
 */
module SupervisorHealth {
  datatype WorkerState = Running | BackingOff | Failed | Disabled

  datatype Exit = Completed | Errored | Panicked

  /** Why a worker failed for good. */
  datatype Cause = CheckPanicked | NoPolicy(exit: Exit) | Exhausted(exit: Exit)

  /**
   Where a supervisor stands. `Failing` is `fail` before its first write,
   `Marked` after the state map, `Unhealthy` after the health channel.
   */
  datatype Phase =
    | Checking
    | Ready
    | InRun
    | Exited(exit: Exit)
    | Pausing
    | Backoff
    | Failing(cause: Cause)
    | Marked(cause: Cause)
    | Unhealthy(cause: Cause)
    | Done

  datatype Worker = Worker(phase: Phase, state: WorkerState, known: bool, policy: bool, runsInShutdown: nat)

  /** `log` holds what signalled shutdown: a worker's cause, or the process's own signal. */
  datatype Signal = FromWorker(worker: nat, cause: Cause) | FromOutside

  datatype System = System(workers: seq<Worker>, healthy: bool, shutdown: bool, log: seq<Signal>)

  datatype Move =
    | Enable(worker: nat)
    | Disable(worker: nat)
    | CheckPanic(worker: nat)
    | Begin(worker: nat)
    | EndRun(worker: nat, exit: Exit)
    | Cancelled(worker: nat)
    | Look(worker: nat, spent: bool)
    | MarkBackoff(worker: nat)
    | Wake(worker: nat)
    | GiveUp(worker: nat)
    | FailStep(worker: nat)
    | SignalShutdown

  predicate Fresh(s: System) {
    && s.healthy && !s.shutdown && s.log == []
    && forall i :: 0 <= i < |s.workers| ==>
         s.workers[i].phase == Checking && !s.workers[i].known && s.workers[i].runsInShutdown == 0
  }

  predicate CanMove(s: System, m: Move) {
    if m.SignalShutdown? then true
    else
      && m.worker < |s.workers|
      && var phase := s.workers[m.worker].phase;
         match m {
           case Enable(_) => phase.Checking?
           case Disable(_) => phase.Checking?
           case CheckPanic(_) => phase.Checking?
           case Begin(_) => phase.Ready?
           case EndRun(_, _) => phase.InRun?
           case Cancelled(_) => phase.InRun?
           case Look(_, _) => phase.Exited?
           case MarkBackoff(_) => phase.Pausing?
           case Wake(_) => phase.Backoff?
           case GiveUp(_) => phase.Backoff? && s.shutdown
           case FailStep(_) => phase.Failing? || phase.Marked? || phase.Unhealthy?
           case SignalShutdown => true
         }
  }

  function Apply(s: System, m: Move): System
    requires CanMove(s, m)
  {
    if m.SignalShutdown? then s.(shutdown := true, log := s.log + [FromOutside])
    else
      var w := s.workers[m.worker];
      match m
      case Enable(i) => s.(workers := s.workers[i := w.(phase := Ready)])
      case Disable(i) => s.(workers := s.workers[i := w.(phase := Done, state := Disabled, known := true)])
      case CheckPanic(i) => s.(workers := s.workers[i := w.(phase := Failing(CheckPanicked))])
      case Begin(i) =>
        var runs := if s.shutdown then w.runsInShutdown + 1 else w.runsInShutdown;
        s.(workers := s.workers[i := w.(phase := InRun, state := Running, known := true, runsInShutdown := runs)])
      case EndRun(i, exit) => s.(workers := s.workers[i := w.(phase := Exited(exit))])
      case Cancelled(i) => s.(workers := s.workers[i := w.(phase := Done)])
      case Look(i, spent) =>
        var next :=
          if s.shutdown then Done
          else if !w.policy then Failing(NoPolicy(w.phase.exit))
          else if spent then Failing(Exhausted(w.phase.exit))
          else Pausing;
        s.(workers := s.workers[i := w.(phase := next)])
      case MarkBackoff(i) => s.(workers := s.workers[i := w.(phase := Backoff, state := BackingOff, known := true)])
      case Wake(i) => s.(workers := s.workers[i := w.(phase := Ready)])
      case GiveUp(i) => s.(workers := s.workers[i := w.(phase := Done)])
      case FailStep(i) =>
        match w.phase {
          case Failing(cause) =>
            s.(workers := s.workers[i := w.(phase := Marked(cause), state := Failed, known := true)])
          case Marked(cause) =>
            s.(workers := s.workers[i := w.(phase := if cause == NoPolicy(Completed) then Done else Unhealthy(cause))],
               healthy := false)
          case Unhealthy(cause) =>
            s.(workers := s.workers[i := w.(phase := Done)], shutdown := true, log := s.log + [FromWorker(i, cause)])
          case _ => s
        }
  }

  predicate ValidMoves(s: System, ms: seq<Move>)
    decreases |ms|
  {
    ms == [] || (CanMove(s, ms[0]) && ValidMoves(Apply(s, ms[0]), ms[1..]))
  }

  function Moves(s: System, ms: seq<Move>): System
    requires ValidMoves(s, ms)
    decreases |ms|
  {
    if ms == [] then s else Moves(Apply(s, ms[0]), ms[1..])
  }

  predicate IsFailed(w: Worker) {
    w.known && w.state.Failed?
  }

  /** A worker's own record: it is marked failed only on its way out, and runs once in a shutdown. */
  predicate WorkerOk(s: System, w: Worker) {
    && (IsFailed(w) ==> w.phase.Marked? || w.phase.Unhealthy? || w.phase.Done?)
    && (w.phase.Marked? || w.phase.Unhealthy? ==> IsFailed(w))
    && (IsFailed(w) && !w.phase.Marked? ==> !s.healthy)
    && (w.phase.Unhealthy? ==> w.phase.cause != NoPolicy(Completed))
    && (w.phase.Failing? && w.phase.cause.NoPolicy? ==> !w.policy)
    && (w.runsInShutdown > 0 ==>
          s.shutdown && w.runsInShutdown == 1 && (w.phase.InRun? || w.phase.Exited? || w.phase.Done?))
  }

  ghost predicate Truthful(s: System) {
    && (forall i :: 0 <= i < |s.workers| ==> WorkerOk(s, s.workers[i]))
    && (!s.healthy ==> exists i :: 0 <= i < |s.workers| && IsFailed(s.workers[i]))
    && (s.shutdown <==> s.log != [])
    && (forall k :: 0 <= k < |s.log| && s.log[k].FromWorker? ==> s.log[k].cause != NoPolicy(Completed))
  }

  /** Health and failure only ever go one way. */
  lemma NothingReverts(s: System, m: Move)
    requires Truthful(s) && CanMove(s, m)
    ensures var s' := Apply(s, m);
      && |s'.workers| == |s.workers|
      && (!s.healthy ==> !s'.healthy) && (s.shutdown ==> s'.shutdown)
      && forall i :: 0 <= i < |s.workers| && IsFailed(s.workers[i]) ==> IsFailed(s'.workers[i])
  {
    if !m.SignalShutdown? {
      assert WorkerOk(s, s.workers[m.worker]);
    }
  }

  lemma MoveKeepsWorkers(s: System, m: Move)
    requires Truthful(s) && CanMove(s, m)
    ensures forall i :: 0 <= i < |s.workers| ==> WorkerOk(Apply(s, m), Apply(s, m).workers[i])
  {
    var s' := Apply(s, m);
    forall i | 0 <= i < |s.workers| ensures WorkerOk(s', s'.workers[i]) {
      assert WorkerOk(s, s.workers[i]);
    }
  }

  lemma MoveKeepsTruth(s: System, m: Move)
    requires Truthful(s) && CanMove(s, m)
    ensures Truthful(Apply(s, m))
  {
    var s' := Apply(s, m);
    NothingReverts(s, m);
    MoveKeepsWorkers(s, m);
    if !s'.healthy {
      if s.healthy {
        assert WorkerOk(s, s.workers[m.worker]);
        assert IsFailed(s'.workers[m.worker]);
      } else {
        var i :| 0 <= i < |s.workers| && IsFailed(s.workers[i]);
        assert IsFailed(s'.workers[i]);
      }
    }
    if m.FailStep? {
      assert WorkerOk(s, s.workers[m.worker]);
    }
  }

  lemma {:induction false} MovesKeepTruth(s: System, ms: seq<Move>)
    requires Truthful(s) && ValidMoves(s, ms)
    ensures Truthful(Moves(s, ms))
    decreases |ms|
  {
    if ms != [] {
      MoveKeepsTruth(s, ms[0]);
      MovesKeepTruth(Apply(s, ms[0]), ms[1..]);
    }
  }

  /**
   After any interleaving: the process is unhealthy exactly when a worker has
   failed, up to the one write in between; shutdown was signalled from outside or
   by a failure other than a plain `Ok(())` without a policy; and no worker has
   begun more than one run since.
   */
  lemma HealthTellsTheTruth(s: System, ms: seq<Move>)
    requires Fresh(s) && ValidMoves(s, ms)
    ensures var t := Moves(s, ms);
      && (!t.healthy ==> exists i :: 0 <= i < |t.workers| && IsFailed(t.workers[i]))
      && (forall i :: 0 <= i < |t.workers| && IsFailed(t.workers[i]) && !t.workers[i].phase.Marked? ==> !t.healthy)
      && (t.shutdown <==> t.log != [])
      && (forall k :: 0 <= k < |t.log| && t.log[k].FromWorker? ==> t.log[k].cause != NoPolicy(Completed))
      && (forall i :: 0 <= i < |t.workers| ==> t.workers[i].runsInShutdown <= 1)
  {
    assert forall i :: 0 <= i < |s.workers| ==> WorkerOk(s, s.workers[i]);
    MovesKeepTruth(s, ms);
    var t := Moves(s, ms);
    assert forall i :: 0 <= i < |t.workers| ==> WorkerOk(t, t.workers[i]);
  }

  /** Over a whole run nothing reverts either. */
  lemma {:induction false} FailureIsForever(s: System, ms: seq<Move>)
    requires Truthful(s) && ValidMoves(s, ms)
    ensures var t := Moves(s, ms);
      && |t.workers| == |s.workers|
      && (!s.healthy ==> !t.healthy) && (s.shutdown ==> t.shutdown)
      && forall i :: 0 <= i < |s.workers| && IsFailed(s.workers[i]) ==> IsFailed(t.workers[i])
    decreases |ms|
  {
    if ms != [] {
      MoveKeepsTruth(s, ms[0]);
      NothingReverts(s, ms[0]);
      FailureIsForever(Apply(s, ms[0]), ms[1..]);
    }
  }
}
