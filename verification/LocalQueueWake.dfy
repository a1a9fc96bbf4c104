/**
 The wake-up protocol between producers and the worker inside `next`.

 A producer pushes under the lock and calls `Notify::notify_one` after dropping
 it; the worker checks the queue under the lock and, finding it empty, awaits
 `Notify::notified`. `notify_one` wakes a parked waiter or stores the one permit;
 a waiter first spends a stored permit; a woken waiter that is dropped before it
 resumes hands its wake-up back. Every line below is one such step, and steps of
 the two sides interleave freely.
 */
module LocalQueueWake {
  import opened Wrappers
  import opened LocalQueueSpec
  import opened LocalQueueSystem

  /** Where the worker stands; `Away` is everything outside `next`: settling, handling, pausing, not running. */
  datatype Phase = Checking | Missed | Parked | Woken | Away

  /** `unsignalled` counts producers between their push and their `notify_one`. */
  datatype Wake = Wake(sys: System, permit: bool, phase: Phase, unsignalled: nat)

  datatype Move =
    | Produce(ev: Event)
    | Signal
    | Check
    | Poll
    | Resume
    | Report(ev: Event)
    | Return
    | Cancel
    | Reset(ev: Event)

  const IDLE := Wake(START, false, Away, 0)

  predicate CanMove(w: Wake, m: Move) {
    match m
    case Produce(ev) => ev.SendMessage? || ev.RequeueKey? || ev.ForgetKey?
    case Signal => w.unsignalled > 0
    case Check => w.phase.Checking? && w.sys.held.None?
    case Poll => w.phase.Missed?
    case Resume => w.phase.Woken?
    case Report(ev) =>
      w.phase.Away? && Enabled(w.sys, ev) && (ev.HandlerDone? || ev.HandlerRetry? || ev.HandlerFailed?)
    case Return => w.phase.Away? && w.sys.held.None?
    case Cancel => true
    case Reset(ev) => w.phase.Away? && (ev.Restart? || ev.LeadershipLost?)
  }

  function Apply(cfg: Config, w: Wake, m: Move): Wake
    requires CanMove(w, m)
  {
    match m
    case Produce(ev) =>
      var sys := Step(cfg, w.sys, ev);
      var pushed := if |sys.q.queued| > |w.sys.q.queued| then 1 else 0;
      w.(sys := sys, unsignalled := w.unsignalled + pushed)
    case Signal =>
      var rest := w.(unsignalled := w.unsignalled - 1);
      if w.phase.Parked? then rest.(phase := Woken) else rest.(permit := true)
    case Check =>
      if w.sys.q.queued == [] then w.(phase := Missed) else w.(sys := Step(cfg, w.sys, Take), phase := Away)
    case Poll =>
      if w.permit then w.(permit := false, phase := Checking) else w.(phase := Parked)
    case Resume => w.(phase := Checking)
    case Report(ev) => w.(sys := Step(cfg, w.sys, ev))
    case Return => w.(phase := Checking)
    case Cancel => w.(permit := w.permit || w.phase.Woken?, phase := Away)
    case Reset(ev) => w.(sys := Step(cfg, w.sys, ev))
  }

  /** Inside `next` nothing is in hand, and a worker that will wait can rely on being woken. */
  ghost predicate NoLostWakeup(w: Wake) {
    && (!w.phase.Away? ==> w.sys.held.None?)
    && (w.phase.Parked? ==> !w.permit)
    && (w.sys.q.queued != [] && w.phase.Missed? ==> w.permit || w.unsignalled > 0)
    && (w.sys.q.queued != [] && w.phase.Parked? ==> w.unsignalled > 0)
  }

  predicate ValidMoves(cfg: Config, w: Wake, ms: seq<Move>)
    decreases |ms|
  {
    ms == [] || (CanMove(w, ms[0]) && ValidMoves(cfg, Apply(cfg, w, ms[0]), ms[1..]))
  }

  function Moves(cfg: Config, w: Wake, ms: seq<Move>): Wake
    requires ValidMoves(cfg, w, ms)
    decreases |ms|
  {
    if ms == [] then w else Moves(cfg, Apply(cfg, w, ms[0]), ms[1..])
  }

  lemma MoveKeepsWakeups(cfg: Config, w: Wake, m: Move)
    requires NoLostWakeup(w) && CanMove(w, m)
    ensures NoLostWakeup(Apply(cfg, w, m))
  {
  }

  /** No interleaving of sends, requeues, outcomes, cancellations and resets loses a wake-up. */
  lemma {:induction false} NeverLosesAWakeup(cfg: Config, w: Wake, ms: seq<Move>)
    requires NoLostWakeup(w) && ValidMoves(cfg, w, ms)
    ensures NoLostWakeup(Moves(cfg, w, ms))
    decreases |ms|
  {
    if ms != [] {
      MoveKeepsWakeups(cfg, w, ms[0]);
      NeverLosesAWakeup(cfg, Apply(cfg, w, ms[0]), ms[1..]);
    }
  }

  /** The worker's own next move inside `next`, once nobody else moves; a parked worker has none. */
  function WorkerMove(w: Wake): Option<Move> {
    match w.phase
    case Checking => Some(Check)
    case Missed => Some(Poll)
    case Woken => Some(Resume)
    case _ => None
  }

  function WorkerAlone(cfg: Config, w: Wake, moves: nat): Wake
    decreases moves
  {
    match WorkerMove(w)
    case None => w
    case Some(m) => if moves == 0 || !CanMove(w, m) then w else WorkerAlone(cfg, Apply(cfg, w, m), moves - 1)
  }

  /**
   Once every push has been signalled, a worker waiting for work on a non-empty
   queue has the head of the line in hand within two moves of its own, whatever
   happened before.
   */
  lemma WaitingWorkerTakesTheHead(cfg: Config, ms: seq<Move>)
    requires ValidMoves(cfg, IDLE, ms)
    ensures var w := Moves(cfg, IDLE, ms);
      w.sys.q.queued != [] && w.unsignalled == 0 && !w.phase.Away? ==>
        && !w.phase.Parked?
        && WorkerAlone(cfg, w, 2).sys.held == Some(w.sys.q.queued[0].msg)
  {
    NeverLosesAWakeup(cfg, IDLE, ms);
    var w := Moves(cfg, IDLE, ms);
    if w.sys.q.queued != [] && w.unsignalled == 0 && !w.phase.Away? {
      HeadInTwo(cfg, w);
    }
  }

  lemma HeadInTwo(cfg: Config, w: Wake)
    requires NoLostWakeup(w) && w.sys.q.queued != [] && w.unsignalled == 0 && !w.phase.Away?
    ensures !w.phase.Parked? && WorkerAlone(cfg, w, 2).sys.held == Some(w.sys.q.queued[0].msg)
  {
  }

  // ------------------------------------------------------------------------
  // The queue underneath
  // ------------------------------------------------------------------------

  /** The lock sections among the moves; a check that finds a message takes it. */
  function Sections(cfg: Config, sys: System, ms: seq<Move>): seq<Event>
    decreases |ms|
  {
    if ms == [] then []
    else
      var taken: seq<Event> :=
        match ms[0]
        case Produce(ev) => [ev]
        case Report(ev) => [ev]
        case Reset(ev) => [ev]
        case Check => if sys.q.queued == [] then [] else [Take]
        case _ => [];
      if taken == [] then Sections(cfg, sys, ms[1..])
      else if Enabled(sys, taken[0]) then taken + Sections(cfg, Step(cfg, sys, taken[0]), ms[1..])
      else taken
  }

  /** Every interleaving is a run of the queue: what runs promise holds under the wake-up protocol too. */
  lemma {:induction false} MovesAreARunOfTheQueue(cfg: Config, w: Wake, ms: seq<Move>)
    requires ValidMoves(cfg, w, ms)
    ensures var evs := Sections(cfg, w.sys, ms);
      ValidRun(cfg, w.sys, evs) && Moves(cfg, w, ms).sys == Run(cfg, w.sys, evs)
    decreases |ms|
  {
    if ms != [] {
      var next := Apply(cfg, w, ms[0]);
      MovesAreARunOfTheQueue(cfg, next, ms[1..]);
      var evs, rest := Sections(cfg, w.sys, ms), Sections(cfg, next.sys, ms[1..]);
      if evs != rest || next.sys != w.sys {
        assert evs[1..] == rest;
      }
    }
  }

  // ------------------------------------------------------------------------
  // Wake-ups
  // ------------------------------------------------------------------------

  predicate PushedOnto(before: State, after: State) {
    after.queued != [] && after.queued[..|after.queued| - 1] == before.queued
  }

  /** The producers' moves that put a message at the end of the line. */
  function Pushes(cfg: Config, w: Wake, ms: seq<Move>): nat
    requires ValidMoves(cfg, w, ms)
    decreases |ms|
  {
    if ms == [] then 0
    else
      var next := Apply(cfg, w, ms[0]);
      (if ms[0].Produce? && PushedOnto(w.sys.q, next.sys.q) then 1 else 0) + Pushes(cfg, next, ms[1..])
  }

  function Times(ms: seq<Move>, m: Move): nat {
    if ms == [] then 0 else (if ms[0] == m then 1 else 0) + Times(ms[1..], m)
  }

  lemma ProducersPushAtTheEnd(cfg: Config, sys: System, ev: Event)
    requires ev.SendMessage? || ev.RequeueKey? || ev.ForgetKey?
    ensures var q' := Step(cfg, sys, ev).q;
      && (|q'.queued| > |sys.q.queued| <==> PushedOnto(sys.q, q'))
      && (q'.queued == sys.q.queued || PushedOnto(sys.q, q'))
  {
  }

  /** Every push is signalled once: what is owed is the pushes less the signals. */
  lemma {:induction false} PushesAreSignalled(cfg: Config, w: Wake, ms: seq<Move>)
    requires ValidMoves(cfg, w, ms)
    ensures Moves(cfg, w, ms).unsignalled + Times(ms, Signal) == w.unsignalled + Pushes(cfg, w, ms)
    decreases |ms|
  {
    if ms != [] {
      if ms[0].Produce? {
        ProducersPushAtTheEnd(cfg, w.sys, ms[0].ev);
      }
      PushesAreSignalled(cfg, Apply(cfg, w, ms[0]), ms[1..]);
    }
  }

  /** Wake-ups not yet turned into a check. */
  function Unspent(w: Wake): nat {
    (if w.permit then 1 else 0) + (if w.phase.Woken? then 1 else 0) + (if w.phase.Checking? then 1 else 0)
  }

  lemma {:induction false} ChecksArePaid(cfg: Config, w: Wake, ms: seq<Move>)
    requires ValidMoves(cfg, w, ms)
    ensures Times(ms, Check) + Unspent(Moves(cfg, w, ms)) <= Unspent(w) + Times(ms, Return) + Times(ms, Signal)
    decreases |ms|
  {
    if ms != [] {
      ChecksArePaid(cfg, Apply(cfg, w, ms[0]), ms[1..]);
    }
  }

  /**
   From a queue nobody has touched: every push is signalled once, and the worker
   never spins, since each of its looks at the queue follows a call of `next` of its
   own or a signal of its own.
   */
  lemma LooksAreBounded(cfg: Config, ms: seq<Move>)
    requires ValidMoves(cfg, IDLE, ms)
    ensures Times(ms, Signal) <= Pushes(cfg, IDLE, ms)
    ensures CanMove(Moves(cfg, IDLE, ms), Signal) <==> Times(ms, Signal) < Pushes(cfg, IDLE, ms)
    ensures Times(ms, Check) <= Times(ms, Return) + Times(ms, Signal)
  {
    PushesAreSignalled(cfg, IDLE, ms);
    ChecksArePaid(cfg, IDLE, ms);
  }

  /** A permit waits for the worker's next poll, whatever else happens. */
  lemma {:induction false} PermitStays(cfg: Config, w: Wake, ms: seq<Move>)
    requires ValidMoves(cfg, w, ms) && w.permit && !w.phase.Parked? && Poll !in ms
    ensures Moves(cfg, w, ms).permit && !Moves(cfg, w, ms).phase.Parked?
    decreases |ms|
  {
    if ms != [] {
      PermitStays(cfg, Apply(cfg, w, ms[0]), ms[1..]);
    }
  }

  /** A signal given to a worker that is not parked keeps its next poll from waiting. */
  lemma SignalIsKept(cfg: Config, w: Wake, ms: seq<Move>)
    requires w.unsignalled > 0 && !w.phase.Parked? && Poll !in ms
    requires ValidMoves(cfg, w, [Signal] + ms)
    ensures var t := Moves(cfg, w, [Signal] + ms);
      CanMove(t, Poll) ==> CanMove(Apply(cfg, t, Poll), Check) || Apply(cfg, t, Poll).sys.held.Some?
  {
    assert ([Signal] + ms)[1..] == ms;
    PermitStays(cfg, Apply(cfg, w, Signal), ms);
  }

  /** A move of a producer. */
  predicate Foreign(m: Move) {
    m.Produce? || m.Signal?
  }

  lemma {:induction false} WokenStays(cfg: Config, w: Wake, ms: seq<Move>)
    requires ValidMoves(cfg, w, ms) && w.phase.Woken? && forall m :: m in ms ==> Foreign(m)
    ensures Moves(cfg, w, ms).phase.Woken?
    decreases |ms|
  {
    if ms != [] {
      assert Foreign(ms[0]);
      WokenStays(cfg, Apply(cfg, w, ms[0]), ms[1..]);
    }
  }

  /**
   A signal wakes a parked worker: it can resume, and then look. A worker dropped
   before it resumes hands the wake-up back, and its next poll does not wait.
   */
  lemma ParkedWorkerIsWoken(cfg: Config, w: Wake, meanwhile: seq<Move>, ms: seq<Move>)
    requires w.unsignalled > 0 && w.phase.Parked? && NoLostWakeup(w)
    requires ValidMoves(cfg, w, [Signal] + meanwhile) && forall m :: m in meanwhile ==> Foreign(m)
    ensures var t := Moves(cfg, w, [Signal] + meanwhile);
      && CanMove(t, Resume) && CanMove(Apply(cfg, t, Resume), Check)
      && CanMove(t, Cancel)
      && (Poll !in ms && ValidMoves(cfg, Apply(cfg, t, Cancel), ms) ==>
            var dropped := Moves(cfg, Apply(cfg, t, Cancel), ms);
            CanMove(dropped, Poll) ==> Apply(cfg, dropped, Poll).phase.Checking?)
  {
    assert ([Signal] + meanwhile)[1..] == meanwhile;
    NeverLosesAWakeup(cfg, w, [Signal] + meanwhile);
    WokenStays(cfg, Apply(cfg, w, Signal), meanwhile);
    var t := Moves(cfg, w, [Signal] + meanwhile);
    if Poll !in ms && ValidMoves(cfg, Apply(cfg, t, Cancel), ms) {
      PermitStays(cfg, Apply(cfg, t, Cancel), ms);
    }
  }

  // ------------------------------------------------------------------------
  // The worker's loop
  // ------------------------------------------------------------------------

  function LastOwn(ms: seq<Move>): (r: Option<Move>)
    ensures r.Some? ==> !Foreign(r.value)
  {
    if ms == [] then None
    else if !Foreign(ms[|ms| - 1]) then Some(ms[|ms| - 1])
    else LastOwn(ms[..|ms| - 1])
  }

  /** Where the worker's own last move leaves it. */
  predicate StandsAfter(w: Wake, last: Option<Move>) {
    && (!w.phase.Away? ==> w.sys.held.None?)
    && if last.None? then w.phase.Away?
       else
         match last.value
         case Return => w.phase.Checking?
         case Resume => w.phase.Checking?
         case Check => w.phase.Missed? || (w.phase.Away? && w.sys.held.Some?)
         case Poll => w.phase.Checking? || w.phase.Parked? || w.phase.Woken?
         case Report(_) => w.phase.Away? && w.sys.held.None?
         case Reset(_) => w.phase.Away? && w.sys.held.None?
         case _ => w.phase.Away?
  }

  lemma MoveFollowsTheLoop(cfg: Config, w: Wake, last: Option<Move>, m: Move)
    requires CanMove(w, m) && StandsAfter(w, last)
    ensures StandsAfter(Apply(cfg, w, m), if Foreign(m) then last else Some(m))
  {
  }

  lemma {:induction false} MovesFollowTheLoop(cfg: Config, w: Wake, past: seq<Move>, ms: seq<Move>)
    requires ValidMoves(cfg, w, ms) && StandsAfter(w, LastOwn(past))
    ensures StandsAfter(Moves(cfg, w, ms), LastOwn(past + ms))
    decreases |ms|
  {
    if ms == [] {
      assert past + [] == past;
    } else {
      assert (past + [ms[0]])[..|past|] == past;
      assert (past + [ms[0]]) + ms[1..] == past + ms;
      MoveFollowsTheLoop(cfg, w, LastOwn(past), ms[0]);
      MovesFollowTheLoop(cfg, Apply(cfg, w, ms[0]), past + [ms[0]], ms[1..]);
    }
  }

  lemma WhatCanFollow(cfg: Config, t: Wake, last: Option<Move>)
    requires StandsAfter(t, last) && (last.Some? ==> !Foreign(last.value))
    ensures last == Some(Return) || last == Some(Resume) ==> CanMove(t, Check)
    ensures CanMove(t, Check) ==> last == Some(Return) || last == Some(Resume) || last == Some(Poll)
    ensures CanMove(t, Poll) <==> last == Some(Check) && t.sys.held.None?
    ensures CanMove(t, Resume) ==> last == Some(Poll)
    ensures CanMove(t, Report(HandlerDone)) <==> t.sys.held.Some?
    ensures CanMove(t, Return) <==>
            t.sys.held.None? && (last.None? || last.value.Cancel? || last.value.Report? || last.value.Reset?)
  {
  }

  /**
   What the worker can do next, by its own last move: look after `next` was called
   or it was woken; report while it holds a message; wait only after a look that
   found none; call `next` only with nothing in hand.
   */
  lemma WorkerFollowsItsLoop(cfg: Config, ms: seq<Move>)
    requires ValidMoves(cfg, IDLE, ms)
    ensures var t, last := Moves(cfg, IDLE, ms), LastOwn(ms);
      && (last == Some(Return) || last == Some(Resume) ==> CanMove(t, Check))
      && (CanMove(t, Check) ==> last == Some(Return) || last == Some(Resume) || last == Some(Poll))
      && (CanMove(t, Poll) <==> last == Some(Check) && t.sys.held.None?)
      && (CanMove(t, Resume) ==> last == Some(Poll))
      && (CanMove(t, Report(HandlerDone)) <==> t.sys.held.Some?)
      && (CanMove(t, Return) <==>
            t.sys.held.None? && (last.None? || last.value.Cancel? || last.value.Report? || last.value.Reset?))
  {
    MovesFollowTheLoop(cfg, IDLE, [], ms);
    assert [] + ms == ms;
    WhatCanFollow(cfg, Moves(cfg, IDLE, ms), LastOwn(ms));
  }

  /** Producers can move at any time, and so can what drops the worker. */
  lemma NothingHoldsProducers(cfg: Config, w: Wake, key: Key, msg: Message, reason: string, cause: Cause, at: nat)
    ensures CanMove(w, Produce(SendMessage(msg))) && CanMove(w, Produce(RequeueKey(key)))
    ensures CanMove(w, Produce(ForgetKey(key)))
    ensures CanMove(w, Cancel)
    ensures CanMove(Apply(cfg, w, Cancel), Reset(Restart)) && CanMove(Apply(cfg, w, Cancel), Reset(LeadershipLost))
    ensures w.phase.Away? && w.sys.held.Some? && !cause.Exhausted? ==>
              CanMove(w, Report(HandlerRetry(reason, at))) && CanMove(w, Report(HandlerFailed(cause, at)))
  {
  }
}
