/**
 What `serve` can do next, told by the moves before: when it may acquire, settle,
 take, report and observe a loss, and what its lock sections make of the queue.
 */
module LocalQueueTurns {
  import opened Wrappers
  import opened LocalQueueSpec
  import opened LocalQueueSystem
  import opened LocalQueueTerms
  import opened LocalQueueTimeline

  /** `Settles` counts the time since the acquisition. */
  datatype Stage = Waits | Settles(waited: nat) | Handles

  function StageAfter(stage: Stage, m: Move): Stage {
    match m
    case Acquire => Settles(0)
    case Settled => Handles
    case ObserveLoss => Waits
    case ServeAgain => Waits
    case Tick(elapsed) => if stage.Settles? then Settles(stage.waited + elapsed) else stage
    case _ => stage
  }

  function StageOf(ms: seq<Move>): Stage {
    if ms == [] then Waits else StageAfter(StageOf(ms[..|ms| - 1]), ms[|ms| - 1])
  }

  /** The time a pause has yet to run. */
  function PauseLeft(cfg: Config, t: Timing, ms: seq<Move>): nat
    requires Played(cfg, t, ms)
    decreases |ms|
  {
    if ms == [] then 0
    else
      var init, m := ms[..|ms| - 1], ms[|ms| - 1];
      LastMove(cfg, t, ms);
      PauseAfter(cfg, t, After(cfg, t, init).sys, PauseLeft(cfg, t, init), m)
  }

  /** A pause is started by a retry, runs down with the clock and ends with the serving. */
  function PauseAfter(cfg: Config, t: Timing, s: System, left: nat, m: Move): nat {
    if m.ObserveLoss? || m.ServeAgain? then 0
    else if m.Tick? then (if left > m.elapsed then left - m.elapsed else 0)
    else if StartsPause(cfg, s, m) then t.retryDelay
    else left
  }

  /** A retry that returns no letter. */
  predicate StartsPause(cfg: Config, s: System, m: Move) {
    m.Work? && m.ev.HandlerRetry? && s.held.Some? && Retry(cfg, s.q, s.held.value, m.ev.reason, m.ev.at).1.None?
  }

  /** The server stands where the stage and the pause say. */
  predicate Agrees(v: Server, stage: Stage, left: nat) {
    && (match stage
        case Waits => v.phase.Following?
        case Settles(waited) => v.phase.Settling? && v.now == v.phase.since + waited
        case Handles => v.phase.Serving?)
    && left == (if v.pausedUntil > v.now then v.pausedUntil - v.now else 0)
    && (stage.Waits? ==> v.pausedUntil == 0)
  }

  lemma MoveAgrees(cfg: Config, t: Timing, v: Server, m: Move, stage: Stage, left: nat)
    requires CanMove(t, v, m) && Agrees(v, stage, left)
    ensures Agrees(Apply(cfg, t, v, m), StageAfter(stage, m), PauseAfter(cfg, t, v.sys, left, m))
  {
  }

  lemma {:induction false} MovesAgree(cfg: Config, t: Timing, ms: seq<Move>)
    requires Played(cfg, t, ms)
    ensures Agrees(After(cfg, t, ms), StageOf(ms), PauseLeft(cfg, t, ms))
    decreases |ms|
  {
    if ms != [] {
      var init, m := ms[..|ms| - 1], ms[|ms| - 1];
      LastMove(cfg, t, ms);
      MovesAgree(cfg, t, init);
      MoveAgrees(cfg, t, After(cfg, t, init), m, StageOf(init), PauseLeft(cfg, t, init));
    }
  }

  lemma WhatFollows(t: Timing, v: Server, stage: Stage, left: nat, reason: string, cause: Cause, at: nat)
    requires Agrees(v, stage, left)
    ensures CanMove(t, v, Acquire) <==> stage.Waits? && (v.leading || !t.haEnabled)
    ensures CanMove(t, v, Settled) <==> stage.Settles? && stage.waited >= t.settle
    ensures CanMove(t, v, Work(Take)) <==>
            stage.Handles? && left == 0 && v.sys.q.queued != [] && v.sys.held.None?
    ensures CanMove(t, v, Work(HandlerDone)) <==> stage.Handles? && v.sys.held.Some?
    ensures CanMove(t, v, Work(HandlerRetry(reason, at))) <==> stage.Handles? && v.sys.held.Some?
    ensures CanMove(t, v, Work(HandlerFailed(cause, at))) <==> stage.Handles? && v.sys.held.Some? && !cause.Exhausted?
    ensures CanMove(t, v, ObserveLoss) <==> t.haEnabled && !stage.Waits? && (!v.leading || v.closed)
  {
  }

  /**
   After any run: leadership is acquired only while waiting, when the channel says
   so; serving starts once the settle has passed; a message can be taken exactly
   when there is one, none is in hand and no pause is left; an outcome is reported
   only of a message in hand; and a loss is observed whenever the channel has one.
   */
  lemma WhatServeCanDo(cfg: Config, t: Timing, ms: seq<Move>, reason: string, cause: Cause, at: nat)
    requires Played(cfg, t, ms)
    ensures var v, stage := After(cfg, t, ms), StageOf(ms);
      && (CanMove(t, v, Acquire) <==> stage.Waits? && (ChannelLeads(ms) || !t.haEnabled))
      && (CanMove(t, v, Settled) <==> stage.Settles? && stage.waited >= t.settle)
      && (CanMove(t, v, Work(Take)) <==>
            stage.Handles? && PauseLeft(cfg, t, ms) == 0 && v.sys.q.queued != [] && v.sys.held.None?)
      && (CanMove(t, v, Work(HandlerDone)) <==> stage.Handles? && v.sys.held.Some?)
      && (CanMove(t, v, Work(HandlerRetry(reason, at))) <==> stage.Handles? && v.sys.held.Some?)
      && (CanMove(t, v, Work(HandlerFailed(cause, at))) <==> stage.Handles? && v.sys.held.Some? && !cause.Exhausted?)
      && (CanMove(t, v, ObserveLoss) <==> t.haEnabled && !stage.Waits? && (!ChannelLeads(ms) || ChannelClosed(ms)))
  {
    ClockIsElapsed(cfg, t, ms);
    MovesAgree(cfg, t, ms);
    WhatFollows(t, After(cfg, t, ms), StageOf(ms), PauseLeft(cfg, t, ms), reason, cause, at);
  }

  /** Nothing holds back time, the channel until it closes, producers, or the supervisor. */
  lemma WhatTheOthersCanDo(cfg: Config, t: Timing, ms: seq<Move>, elapsed: nat, leading: bool, key: Key, msg: Message)
    requires Played(cfg, t, ms)
    ensures var v := After(cfg, t, ms);
      && CanMove(t, v, Tick(elapsed)) && CanMove(t, v, Close) && CanMove(t, v, ServeAgain)
      && (CanMove(t, v, Flip(leading)) <==> !ChannelClosed(ms))
      && CanMove(t, v, Produce(SendMessage(msg))) && CanMove(t, v, Produce(RequeueKey(key)))
      && CanMove(t, v, Produce(ForgetKey(key)))
  {
    ClockIsElapsed(cfg, t, ms);
  }

  /** The lock sections among the moves: a loss clears the queue, a re-run drops what was in hand. */
  function Sections(ms: seq<Move>): seq<Event> {
    if ms == [] then []
    else
      match ms[0]
      case Produce(ev) => [ev] + Sections(ms[1..])
      case Work(ev) => [ev] + Sections(ms[1..])
      case ObserveLoss => [LeadershipLost] + Sections(ms[1..])
      case ServeAgain => [Restart] + Sections(ms[1..])
      case _ => Sections(ms[1..])
  }

  /** Every run of `serve` is a run of the queue: what runs of the queue promise holds across terms. */
  lemma {:induction false} MovesAreARunOfTheQueue(cfg: Config, t: Timing, v: Server, ms: seq<Move>)
    requires ValidMoves(cfg, t, v, ms)
    ensures ValidRun(cfg, v.sys, Sections(ms)) && Moves(cfg, t, v, ms).sys == Run(cfg, v.sys, Sections(ms))
    decreases |ms|
  {
    if ms != [] {
      var m := ms[0];
      MovesAreARunOfTheQueue(cfg, t, Apply(cfg, t, v, m), ms[1..]);
      if m.Produce? || m.Work? || m.ObserveLoss? || m.ServeAgain? {
        assert Sections(ms)[1..] == Sections(ms[1..]);
      }
    }
  }
}
