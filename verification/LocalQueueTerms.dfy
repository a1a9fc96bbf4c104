/**
 `serve` under leader election: wait for leadership, settle, handle messages
 until a loss is observed, clear, wait again. Time, the watch channel and the
 supervisor's re-runs are moves of the environment; a log records what an
 observer sees. The statements speak of the watch values the executor observes.
 */
module LocalQueueTerms {
  import opened Wrappers
  import opened LocalQueueSpec
  import opened LocalQueueSystem
  import opened LocalQueueStructure
  import opened LocalQueueAttempts
  import opened LocalQueueRuns

  /** `haEnabled` is false for a context without leader election. */
  datatype Timing = Timing(settle: nat, retryDelay: nat, haEnabled: bool)

  datatype Phase = Following | Settling(since: nat) | Serving(since: nat)

  datatype Mark =
    | Acquired(at: nat)
    | Lost
    | Rerun
    | Pushed(msg: Message)
    | Took(msg: Message, at: nat)
    | Retried(at: nat)

  datatype Server = Server(
    sys: System,
    now: nat,
    phase: Phase,
    pausedUntil: nat,
    leading: bool,
    closed: bool,
    log: seq<Mark>)

  datatype Move =
    | Tick(elapsed: nat)
    | Flip(leading: bool)
    | Close
    | Produce(ev: Event)
    | Acquire
    | Settled
    | Work(ev: Event)
    | ObserveLoss
    | ServeAgain

  const BOOTED := Server(START, 0, Following, 0, false, false, [])

  predicate CanMove(t: Timing, v: Server, m: Move) {
    match m
    case Tick(_) => true
    case Flip(_) => !v.closed
    case Close => true
    case Produce(ev) => ev.SendMessage? || ev.RequeueKey? || ev.ForgetKey?
    case Acquire => v.phase.Following? && (v.leading || !t.haEnabled)
    case Settled => v.phase.Settling? && v.now >= v.phase.since + t.settle
    case Work(ev) =>
      && v.phase.Serving? && Enabled(v.sys, ev)
      && match ev {
           case Take => v.now >= v.pausedUntil
           case HandlerDone => true
           case HandlerRetry(_, _) => true
           case HandlerFailed(_, _) => true
           case _ => false
         }
    case ObserveLoss => t.haEnabled && !v.phase.Following? && (!v.leading || v.closed)
    case ServeAgain => true
  }

  function Apply(cfg: Config, t: Timing, v: Server, m: Move): Server
    requires CanMove(t, v, m)
  {
    match m
    case Tick(elapsed) => v.(now := v.now + elapsed)
    case Flip(leading) => v.(leading := leading)
    case Close => v.(closed := true)
    case Produce(ev) =>
      var sys := Step(cfg, v.sys, ev);
      v.(sys := sys, log := if sys.q.queued != v.sys.q.queued && ev.SendMessage? then v.log + [Pushed(ev.msg)] else v.log)
    case Acquire => v.(phase := Settling(v.now), log := v.log + [Acquired(v.now)])
    case Settled => v.(phase := Serving(v.phase.since))
    case Work(ev) =>
      var sys := Step(cfg, v.sys, ev);
      if ev.Take? then
        v.(sys := sys, log := v.log + [Took(sys.held.value, v.now)])
      else if ev.HandlerRetry? && Retry(cfg, v.sys.q, v.sys.held.value, ev.reason, ev.at).1.None? then
        v.(sys := sys, pausedUntil := v.now + t.retryDelay, log := v.log + [Retried(v.now)])
      else
        v.(sys := sys)
    case ObserveLoss =>
      v.(sys := Step(cfg, v.sys, LeadershipLost), phase := Following, pausedUntil := 0, log := v.log + [Lost])
    case ServeAgain =>
      v.(sys := Step(cfg, v.sys, Restart), phase := Following, pausedUntil := 0, log := v.log + [Rerun])
  }

  predicate ValidMoves(cfg: Config, t: Timing, v: Server, ms: seq<Move>)
    decreases |ms|
  {
    ms == [] || (CanMove(t, v, ms[0]) && ValidMoves(cfg, t, Apply(cfg, t, v, ms[0]), ms[1..]))
  }

  function Moves(cfg: Config, t: Timing, v: Server, ms: seq<Move>): Server
    requires ValidMoves(cfg, t, v, ms)
    decreases |ms|
  {
    if ms == [] then v else Moves(cfg, t, Apply(cfg, t, v, ms[0]), ms[1..])
  }

  // ------------------------------------------------------------------------
  // Reading the log backwards from its end
  // ------------------------------------------------------------------------

  /** When leadership was acquired, if it has been and nothing has ended that run of `handle_messages`. */
  function LeadingSince(log: seq<Mark>): Option<nat> {
    if log == [] then None
    else
      match log[|log| - 1]
      case Acquired(at) => Some(at)
      case Lost => None
      case Rerun => None
      case _ => LeadingSince(log[..|log| - 1])
  }

  /** The latest retry that still holds the line back. */
  function PausedSince(log: seq<Mark>): Option<nat> {
    if log == [] then None
    else
      match log[|log| - 1]
      case Retried(at) => Some(at)
      case Lost => None
      case Rerun => None
      case _ => PausedSince(log[..|log| - 1])
  }

  /** The messages pushed since the last observed loss. */
  function PushedThisTerm(log: seq<Mark>): set<Message> {
    if log == [] then {}
    else
      match log[|log| - 1]
      case Pushed(msg) => PushedThisTerm(log[..|log| - 1]) + {msg}
      case Lost => {}
      case _ => PushedThisTerm(log[..|log| - 1])
  }

  /** How often a message of `key` was taken since the last observed loss. */
  function TakesThisTerm(log: seq<Mark>, key: Key): nat {
    if log == [] then 0
    else
      match log[|log| - 1]
      case Took(msg, _) => TakesThisTerm(log[..|log| - 1], key) + if msg.key == key then 1 else 0
      case Lost => 0
      case _ => TakesThisTerm(log[..|log| - 1], key)
  }

  /** What must have happened before a take: this term's acquisition and push, a full settle, a full pause. */
  predicate TakeAllowed(t: Timing, before: seq<Mark>, msg: Message, at: nat) {
    && LeadingSince(before).Some? && LeadingSince(before).value + t.settle <= at
    && (PausedSince(before).Some? ==> PausedSince(before).value + t.retryDelay <= at)
    && msg in PushedThisTerm(before)
  }

  ghost predicate TakesAllowed(t: Timing, log: seq<Mark>) {
    forall i :: 0 <= i < |log| && log[i].Took? ==> TakeAllowed(t, log[..i], log[i].msg, log[i].at)
  }

  /** Whatever is held or counted dates from the current term. */
  ghost predicate Dated(s: System, log: seq<Mark>) {
    && (forall e :: e in s.q.queued ==> e.msg in PushedThisTerm(log))
    && (forall d :: d in s.q.dead ==> d.msg in PushedThisTerm(log))
    && (s.held.Some? ==> s.held.value in PushedThisTerm(log))
    && (forall key :: key in s.credit ==> s.credit[key].calls <= TakesThisTerm(log, key))
  }

  /** The log agrees with the clock and with where `serve` stands. */
  predicate Clocked(t: Timing, phase: Phase, now: nat, pausedUntil: nat, log: seq<Mark>) {
    && (!phase.Following? ==> LeadingSince(log) == Some(phase.since))
    && (phase.Serving? ==> phase.since + t.settle <= now)
    && (PausedSince(log).Some? ==> PausedSince(log).value + t.retryDelay <= pausedUntil)
  }

  ghost predicate Isolated(t: Timing, v: Server) {
    && TakesAllowed(t, v.log)
    && Clocked(t, v.phase, v.now, v.pausedUntil, v.log)
    && Dated(v.sys, v.log)
  }

  lemma Appended(log: seq<Mark>, m: Mark)
    ensures (log + [m])[..|log|] == log
  {
  }

  lemma AppendKeepsTakesAllowed(t: Timing, log: seq<Mark>, m: Mark)
    requires TakesAllowed(t, log) && (m.Took? ==> TakeAllowed(t, log, m.msg, m.at))
    ensures TakesAllowed(t, log + [m])
  {
    Appended(log, m);
    forall i | 0 <= i < |log + [m]| && (log + [m])[i].Took?
      ensures TakeAllowed(t, (log + [m])[..i], (log + [m])[i].msg, (log + [m])[i].at)
    {
      assert i < |log| ==> (log + [m])[..i] == log[..i];
    }
  }

  lemma PushesAreSends(cfg: Config, s: System, ev: Event)
    requires Enabled(s, ev)
    ensures var s' := Step(cfg, s, ev);
      s'.pushed == s.pushed || (ev.SendMessage? && s'.q.queued == s.q.queued + [NewEntry(ev.msg.key, ev.msg)])
  {
  }

  lemma AsideOnlyMoves(cfg: Config, q: State, hand: InHand, msg: Message, cause: Cause, at: nat)
    ensures var q' := SetAside(cfg, q, hand, msg, cause, at).0;
      && (forall e :: e in q'.queued ==> e in q.queued)
      && (forall d :: d in q'.dead ==> d.msg == msg || d in q.dead)
  {
  }

  lemma RetriedOnlyMoves(cfg: Config, q: State, msg: Message, reason: string, at: nat)
    requires q.inFlight.Some? && !AttemptsSpent(cfg, q.inFlight.value.attempts)
    ensures var q' := Retry(cfg, q, msg, reason, at).0;
      && q'.dead == q.dead
      && forall j :: 0 <= j < |q'.queued| ==>
           q'.queued[j].msg == if j < |q.queued| then q.queued[j].msg else msg
  {
  }

  /** What an outcome leaves in line and aside was already there, or is the message that was in hand. */
  lemma OutcomeKeepsTerm(cfg: Config, q: State, msg: Message, ev: Event, term: set<Message>)
    requires ev.HandlerRetry? || ev.HandlerFailed?
    requires (forall e :: e in q.queued ==> e.msg in term) && (forall d :: d in q.dead ==> d.msg in term) && msg in term
    ensures var q' := match ev
                      case HandlerRetry(reason, at) => Retry(cfg, q, msg, reason, at).0
                      case HandlerFailed(cause, at) => Fail(cfg, q, msg, cause, at).0;
      (forall e :: e in q'.queued ==> e.msg in term) && (forall d :: d in q'.dead ==> d.msg in term)
  {
    if q.inFlight.Some? {
      var freed := q.(inFlight := None);
      var hand := q.inFlight.value;
      match ev
      case HandlerRetry(reason, at) =>
        if AttemptsSpent(cfg, hand.attempts) {
          AsideOnlyMoves(cfg, freed, hand.(lastReason := Some(reason)), msg, Exhausted, at);
        } else {
          RetriedOnlyMoves(cfg, q, msg, reason, at);
        }
      case HandlerFailed(cause, at) =>
        AsideOnlyMoves(cfg, freed, if cause.Failed? then hand.(lastReason := Some(cause.reason)) else hand, msg, cause, at);
    }
  }

  lemma CreditOnlyGrowsByTaking(cfg: Config, s: System, ev: Event, key: Key)
    requires Enabled(s, ev) && key in Step(cfg, s, ev).credit && !ev.Take?
    ensures key in s.credit || Step(cfg, s, ev).credit[key].calls == 0
    ensures key in s.credit ==> Step(cfg, s, ev).credit[key].calls <= s.credit[key].calls
  {
  }

  lemma TakeIsTheHead(cfg: Config, s: System)
    requires Enabled(s, Take)
    ensures Step(cfg, s, Take).held == Some(s.q.queued[0].msg) && s.q.queued[0] in s.q.queued
  {
  }

  lemma NeutralMark(log: seq<Mark>, m: Mark)
    requires m.Acquired? || m.Rerun? || m.Retried?
    ensures PushedThisTerm(log + [m]) == PushedThisTerm(log)
    ensures forall key :: TakesThisTerm(log + [m], key) == TakesThisTerm(log, key)
  {
  }

  lemma StepKeepsDated(cfg: Config, s: System, ev: Event, log: seq<Mark>, log': seq<Mark>)
    requires Enabled(s, ev) && Dated(s, log) && !ev.Take?
    requires PushedThisTerm(log) <= PushedThisTerm(log')
    requires ev.SendMessage? && Step(cfg, s, ev).q.queued != s.q.queued ==> ev.msg in PushedThisTerm(log')
    requires forall key :: TakesThisTerm(log, key) <= TakesThisTerm(log', key)
    ensures Dated(Step(cfg, s, ev), log')
  {
    var s' := Step(cfg, s, ev);
    if ev.HandlerRetry? || ev.HandlerFailed? {
      OutcomeKeepsTerm(cfg, s.q, s.held.value, ev, PushedThisTerm(log'));
    }
    forall key | key in s'.credit ensures s'.credit[key].calls <= TakesThisTerm(log', key) {
      CreditOnlyGrowsByTaking(cfg, s, ev, key);
    }
  }

  lemma TakeKeepsDated(cfg: Config, s: System, log: seq<Mark>, log': seq<Mark>)
    requires Enabled(s, Take) && Dated(s, log)
    requires PushedThisTerm(log) <= PushedThisTerm(log')
    requires forall key :: TakesThisTerm(log', key)
                        == TakesThisTerm(log, key) + if s.q.queued[0].msg.key == key then 1 else 0
    ensures Dated(Step(cfg, s, Take), log')
  {
  }

  lemma ProduceKeepsIsolated(cfg: Config, t: Timing, v: Server, ev: Event)
    requires Isolated(t, v) && CanMove(t, v, Produce(ev))
    ensures Isolated(t, Apply(cfg, t, v, Produce(ev)))
  {
    PushesAreSends(cfg, v.sys, ev);
    var v' := Apply(cfg, t, v, Produce(ev));
    if v'.log != v.log {
      AppendKeepsTakesAllowed(t, v.log, Pushed(ev.msg));
      Appended(v.log, Pushed(ev.msg));
    }
    StepKeepsDated(cfg, v.sys, ev, v.log, v'.log);
  }

  lemma TakeKeepsIsolated(cfg: Config, t: Timing, v: Server)
    requires Isolated(t, v) && CanMove(t, v, Work(Take))
    ensures Isolated(t, Apply(cfg, t, v, Work(Take)))
  {
    TakeIsTheHead(cfg, v.sys);
    var mark := Took(v.sys.q.queued[0].msg, v.now);
    AppendKeepsTakesAllowed(t, v.log, mark);
    Appended(v.log, mark);
    TakeKeepsDated(cfg, v.sys, v.log, v.log + [mark]);
  }

  lemma OutcomeKeepsIsolated(cfg: Config, t: Timing, v: Server, ev: Event)
    requires Isolated(t, v) && CanMove(t, v, Work(ev)) && !ev.Take?
    ensures Isolated(t, Apply(cfg, t, v, Work(ev)))
  {
    var v' := Apply(cfg, t, v, Work(ev));
    if v'.log != v.log {
      AppendKeepsTakesAllowed(t, v.log, Retried(v.now));
      Appended(v.log, Retried(v.now));
      NeutralMark(v.log, Retried(v.now));
    }
    StepKeepsDated(cfg, v.sys, ev, v.log, v'.log);
  }

  lemma LossKeepsIsolated(cfg: Config, t: Timing, v: Server)
    requires Isolated(t, v) && CanMove(t, v, ObserveLoss)
    ensures Isolated(t, Apply(cfg, t, v, ObserveLoss))
  {
    AppendKeepsTakesAllowed(t, v.log, Lost);
  }

  lemma RerunKeepsIsolated(cfg: Config, t: Timing, v: Server)
    requires Isolated(t, v)
    ensures Isolated(t, Apply(cfg, t, v, ServeAgain))
  {
    AppendKeepsTakesAllowed(t, v.log, Rerun);
    Appended(v.log, Rerun);
    NeutralMark(v.log, Rerun);
    StepKeepsDated(cfg, v.sys, Restart, v.log, v.log + [Rerun]);
    assert Clocked(t, Following, v.now, 0, v.log + [Rerun]);
  }

  lemma MoveKeepsIsolated(cfg: Config, t: Timing, v: Server, m: Move)
    requires Isolated(t, v) && CanMove(t, v, m)
    ensures Isolated(t, Apply(cfg, t, v, m))
  {
    match m
    case Produce(ev) => ProduceKeepsIsolated(cfg, t, v, ev);
    case Work(ev) =>
      if ev.Take? {
        TakeKeepsIsolated(cfg, t, v);
      } else {
        OutcomeKeepsIsolated(cfg, t, v, ev);
      }
    case ObserveLoss => LossKeepsIsolated(cfg, t, v);
    case ServeAgain => RerunKeepsIsolated(cfg, t, v);
    case Acquire =>
      AppendKeepsTakesAllowed(t, v.log, Acquired(v.now));
      Appended(v.log, Acquired(v.now));
      NeutralMark(v.log, Acquired(v.now));
    case _ =>
  }

  // ------------------------------------------------------------------------
  // Attempt counts of the term
  // ------------------------------------------------------------------------

  /** The dead letters count no more attempts than the term has seen takes of their keys. */
  ghost predicate LettersDated(q: State, log: seq<Mark>) {
    forall d :: d in q.dead ==> d.letter.attempts <= TakesThisTerm(log, d.key)
  }

  /** The queue keeps its own invariant throughout, and its letters date from the term. */
  ghost predicate Counted(cfg: Config, v: Server) {
    Invariant(cfg, v.sys) && LettersDated(v.sys.q, v.log)
  }

  lemma AsideKeepsLetters(cfg: Config, q: State, hand: InHand, msg: Message, cause: Cause, at: nat, log: seq<Mark>)
    requires LettersDated(q, log) && hand.attempts <= TakesThisTerm(log, hand.key)
    ensures LettersDated(SetAside(cfg, q, hand, msg, cause, at).0, log)
  {
    var full := q.dead + [Aside(hand.key, msg, Letter(cause, hand.attempts, hand.lastReason, at))];
    assert forall d :: d in SetAside(cfg, q, hand, msg, cause, at).0.dead ==> d in full;
  }

  lemma OutcomeKeepsLetters(cfg: Config, s: System, ev: Event, log: seq<Mark>)
    requires Enabled(s, ev) && (ev.HandlerRetry? || ev.HandlerFailed?) && s.q.inFlight.Some?
    requires LettersDated(s.q, log) && s.q.inFlight.value.attempts <= TakesThisTerm(log, s.q.inFlight.value.key)
    ensures LettersDated(Step(cfg, s, ev).q, log)
  {
    var freed, hand := s.q.(inFlight := None), s.q.inFlight.value;
    match ev
    case HandlerRetry(reason, at) =>
      AsideKeepsLetters(cfg, freed, hand.(lastReason := Some(reason)), s.held.value, Exhausted, at, log);
    case HandlerFailed(cause, at) =>
      AsideKeepsLetters(cfg, freed, if cause.Failed? then hand.(lastReason := Some(cause.reason)) else hand,
                        s.held.value, cause, at, log);
  }

  /** The count in hand is the ledger's, and so no more than the term's takes. */
  lemma HandIsDated(cfg: Config, s: System, log: seq<Mark>)
    requires Invariant(cfg, s) && Dated(s, log) && s.q.inFlight.Some?
    ensures s.q.inFlight.value.attempts <= TakesThisTerm(log, s.q.inFlight.value.key)
  {
  }

  lemma StepKeepsLetters(cfg: Config, s: System, ev: Event, log: seq<Mark>)
    requires Invariant(cfg, s) && Dated(s, log) && Enabled(s, ev) && LettersDated(s.q, log)
    ensures LettersDated(Step(cfg, s, ev).q, log)
  {
    if ev.HandlerRetry? || ev.HandlerFailed? {
      HandIsDated(cfg, s, log);
      OutcomeKeepsLetters(cfg, s, ev, log);
    } else {
      OnlyOutcomesWriteLetters(cfg, s, ev);
    }
  }

  lemma OnlyOutcomesWriteLetters(cfg: Config, s: System, ev: Event)
    requires Enabled(s, ev) && !ev.HandlerRetry? && !ev.HandlerFailed?
    ensures forall d :: d in Step(cfg, s, ev).q.dead ==> d in s.q.dead
  {
  }

  /** A longer log counts no fewer takes, unless it ends the term. */
  lemma LongerLogKeepsLetters(q: State, log: seq<Mark>, m: Mark)
    requires LettersDated(q, log) && !m.Lost?
    ensures LettersDated(q, log + [m])
  {
    Appended(log, m);
  }

  /** The step of the queue a move takes, if it takes one. */
  function StepOf(m: Move): Option<Event> {
    match m
    case Produce(ev) => Some(ev)
    case Work(ev) => Some(ev)
    case ObserveLoss => Some(LeadershipLost)
    case ServeAgain => Some(Restart)
    case _ => None
  }

  lemma MoveIsItsStep(cfg: Config, t: Timing, v: Server, m: Move)
    requires CanMove(t, v, m)
    ensures StepOf(m).Some? ==> Enabled(v.sys, StepOf(m).value)
    ensures var v' := Apply(cfg, t, v, m);
      && v'.sys == (if StepOf(m).Some? then Step(cfg, v.sys, StepOf(m).value) else v.sys)
      && (v'.log == v.log || (exists mark :: v'.log == v.log + [mark] && (mark.Lost? ==> m.ObserveLoss?)))
  {
  }

  lemma MoveKeepsCounted(cfg: Config, t: Timing, v: Server, m: Move)
    requires Isolated(t, v) && Counted(cfg, v) && CanMove(t, v, m)
    ensures Counted(cfg, Apply(cfg, t, v, m))
  {
    MoveIsItsStep(cfg, t, v, m);
    var v' := Apply(cfg, t, v, m);
    if StepOf(m).Some? {
      StepKeepsInvariant(cfg, v.sys, StepOf(m).value);
      StepKeepsLetters(cfg, v.sys, StepOf(m).value, v.log);
    }
    if m.ObserveLoss? {
      assert v'.sys.q.dead == [];
    } else if v'.log != v.log {
      var mark :| v'.log == v.log + [mark] && (mark.Lost? ==> m.ObserveLoss?);
      LongerLogKeepsLetters(v'.sys.q, v.log, mark);
    }
  }

  lemma {:induction false} MovesKeepIsolated(cfg: Config, t: Timing, v: Server, ms: seq<Move>)
    requires Isolated(t, v) && Counted(cfg, v) && ValidMoves(cfg, t, v, ms)
    ensures Isolated(t, Moves(cfg, t, v, ms)) && Counted(cfg, Moves(cfg, t, v, ms))
    decreases |ms|
  {
    if ms != [] {
      MoveKeepsIsolated(cfg, t, v, ms[0]);
      MoveKeepsCounted(cfg, t, v, ms[0]);
      MovesKeepIsolated(cfg, t, Apply(cfg, t, v, ms[0]), ms[1..]);
    }
  }

  lemma CountsAreDated(cfg: Config, s: System, log: seq<Mark>)
    requires Invariant(cfg, s) && Dated(s, log)
    ensures forall e :: e in s.q.queued ==> e.attempts <= TakesThisTerm(log, e.key)
    ensures s.q.inFlight.Some? ==> s.q.inFlight.value.attempts <= TakesThisTerm(log, s.q.inFlight.value.key)
  {
    forall e | e in s.q.queued ensures e.attempts <= TakesThisTerm(log, e.key) {
      assert EntryExact(cfg, s.q, s.credit, e);
    }
    if s.q.inFlight.Some? {
      HandIsDated(cfg, s, log);
    }
  }

  /**
   Leadership terms are isolated on every run. Each take in the log came after
   an acquisition that no observed loss or re-run had ended, a full settle after
   it, a full pause after the latest retry, and took a message pushed in the same
   term; and whatever is held now dates from the current term: every message was
   pushed in it, and every attempt count, of an entry in line, of the one in hand
   and in a dead letter, is at most the takes of its key in it.
   */
  lemma TermsAreIsolated(cfg: Config, t: Timing, ms: seq<Move>)
    requires ValidMoves(cfg, t, BOOTED, ms)
    ensures var v := Moves(cfg, t, BOOTED, ms);
      && (forall i :: 0 <= i < |v.log| && v.log[i].Took? ==> TakeAllowed(t, v.log[..i], v.log[i].msg, v.log[i].at))
      && (forall e :: e in v.sys.q.queued ==> e.msg in PushedThisTerm(v.log))
      && (forall d :: d in v.sys.q.dead ==> d.msg in PushedThisTerm(v.log))
      && (v.sys.held.Some? ==> v.sys.held.value in PushedThisTerm(v.log))
      && (forall key :: key in v.sys.credit ==> v.sys.credit[key].calls <= TakesThisTerm(v.log, key))
    ensures var v := Moves(cfg, t, BOOTED, ms);
      && (forall e :: e in v.sys.q.queued ==> e.attempts <= TakesThisTerm(v.log, e.key))
      && (v.sys.q.inFlight.Some? ==> v.sys.q.inFlight.value.attempts <= TakesThisTerm(v.log, v.sys.q.inFlight.value.key))
      && (forall d :: d in v.sys.q.dead ==> d.letter.attempts <= TakesThisTerm(v.log, d.key))
  {
    assert Isolated(t, BOOTED);
    StartSatisfiesInvariant(cfg);
    MovesKeepIsolated(cfg, t, BOOTED, ms);
    var v := Moves(cfg, t, BOOTED, ms);
    CountsAreDated(cfg, v.sys, v.log);
  }
}
