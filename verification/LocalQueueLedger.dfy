/**
 The ledger of a run told by the run's events: what was pushed, how often each key
 was handled since its last clean slate, and which events end messages.
 */
module LocalQueueLedger {
  import opened Wrappers
  import opened LocalQueueSpec
  import opened LocalQueueSystem
  import opened LocalQueueStructure
  import opened LocalQueueAttempts
  import opened LocalQueueRuns

  /** The event hands a message of the key to `handle`. */
  predicate Handles(s: System, ev: Event, key: Key) {
    ev.Take? && s.q.queued != [] && s.q.queued[0].msg.key == key
  }

  /** The event leaves the key done, set aside or dropped. */
  predicate CleansSlate(cfg: Config, s: System, ev: Event, key: Key) {
    match ev
    case LeadershipLost => true
    case HandlerRetry(reason, at) =>
      s.held.Some? && s.held.value.key == key && Retry(cfg, s.q, s.held.value, reason, at).1.Some?
    case HandlerDone => s.held.Some? && s.held.value.key == key
    case HandlerFailed(_, _) => s.held.Some? && s.held.value.key == key
    case Restart => s.held.Some? && s.held.value.key == key
    case _ => false
  }

  /** The calls for a key over a run that found `calls` of them, and the reason last given. */
  function Handled(cfg: Config, s: System, evs: seq<Event>, key: Key, found: Credit): Credit
    requires ValidRun(cfg, s, evs)
    decreases |evs|
  {
    if evs == [] then found
    else
      var ev := evs[0];
      var next :=
        if CleansSlate(cfg, s, ev, key) then Credit(0, None)
        else if Handles(s, ev, key) then Credit(found.calls + 1, found.reason)
        else if ev.HandlerRetry? && s.held.value.key == key then Credit(found.calls, Some(ev.reason))
        else found;
      Handled(cfg, Step(cfg, s, ev), evs[1..], key, next)
  }

  lemma CreditOfStep(cfg: Config, s: System, ev: Event, key: Key)
    requires Enabled(s, ev)
    ensures var found, next := CreditOf(s.credit, key), CreditOf(Step(cfg, s, ev).credit, key);
      next ==
        if CleansSlate(cfg, s, ev, key) then Credit(0, None)
        else if Handles(s, ev, key) then Credit(found.calls + 1, found.reason)
        else if ev.HandlerRetry? && s.held.value.key == key then Credit(found.calls, Some(ev.reason))
        else found
  {
  }

  lemma {:induction false} LedgerTellsTheCalls(cfg: Config, s: System, evs: seq<Event>, key: Key)
    requires ValidRun(cfg, s, evs)
    ensures CreditOf(Run(cfg, s, evs).credit, key) == Handled(cfg, s, evs, key, CreditOf(s.credit, key))
    decreases |evs|
  {
    if evs != [] {
      CreditOfStep(cfg, s, evs[0], key);
      LedgerTellsTheCalls(cfg, Step(cfg, s, evs[0]), evs[1..], key);
    }
  }

  function HandledFromStart(cfg: Config, evs: seq<Event>, key: Key): Credit
    requires ValidRun(cfg, START, evs)
  {
    Handled(cfg, START, evs, key, Credit(0, None))
  }

  /**
   After any run the count of the message in hand, and of every queued message not
   in hand under its key, is the number of times the key was handed to `handle`
   since it was last done, set aside or dropped, as far as 32 bits count; the
   reason in hand is the last one given since then.
   */
  lemma AttemptsAreTheRunsOwn(cfg: Config, evs: seq<Event>)
    requires ValidRun(cfg, START, evs)
    ensures var q := Run(cfg, START, evs).q;
      && (q.inFlight.Some? ==>
            && q.inFlight.value.attempts == Saturated(HandledFromStart(cfg, evs, q.inFlight.value.key).calls)
            && q.inFlight.value.lastReason == HandledFromStart(cfg, evs, q.inFlight.value.key).reason)
      && (forall e :: e in q.queued && !InHandKey(q, e.key) ==>
            e.attempts == Saturated(HandledFromStart(cfg, evs, e.key).calls))
  {
    AttemptsAreHandleCalls(cfg, evs);
    StartSatisfiesInvariant(cfg);
    RunKeepsInvariant(cfg, START, evs);
    var q := Run(cfg, START, evs).q;
    forall e | e in q.queued && !InHandKey(q, e.key)
      ensures e.attempts == Saturated(HandledFromStart(cfg, evs, e.key).calls)
    {
      LedgerTellsTheCalls(cfg, START, evs, e.key);
    }
    if q.inFlight.Some? {
      LedgerTellsTheCalls(cfg, START, evs, q.inFlight.value.key);
    }
  }

  // ---- Pushes ----

  /** How often a message was accepted for a key that was not queued. */
  function Sends(cfg: Config, s: System, evs: seq<Event>, msg: Message): nat
    requires ValidRun(cfg, s, evs)
    decreases |evs|
  {
    if evs == [] then 0
    else
      (if evs[0] == SendMessage(msg) && Send(cfg, s.q, msg).1 == Accepted && msg.key !in QueuedKeys(s.q.queued) then 1 else 0)
      + Sends(cfg, Step(cfg, s, evs[0]), evs[1..], msg)
  }

  lemma PushesOfStep(cfg: Config, s: System, ev: Event, msg: Message)
    requires Enabled(s, ev)
    ensures Step(cfg, s, ev).pushed[msg] == s.pushed[msg]
            + if ev == SendMessage(msg) && Send(cfg, s.q, msg).1 == Accepted && msg.key !in QueuedKeys(s.q.queued) then 1 else 0
  {
    IndexIsMembership(s.q.queued, s.q.dead, msg.key);
  }

  lemma {:induction false} LedgerTellsTheSends(cfg: Config, s: System, evs: seq<Event>, msg: Message)
    requires ValidRun(cfg, s, evs)
    ensures Run(cfg, s, evs).pushed[msg] == s.pushed[msg] + Sends(cfg, s, evs, msg)
    decreases |evs|
  {
    if evs != [] {
      PushesOfStep(cfg, s, evs[0], msg);
      LedgerTellsTheSends(cfg, Step(cfg, s, evs[0]), evs[1..], msg);
    }
  }

  // ---- Ends ----

  /** What an event may end a message as. */
  predicate EndsAs(cfg: Config, s: System, ev: Event, end: End) {
    match end
    case Finished => ev.HandlerDone?
    case Forgotten => ev.ForgetKey?
    case Discarded => ev.LeadershipLost?
    case DroppedAtRestart => ev.Restart?
    case Superseded =>
      ev.HandlerRetry? && s.held.Some? && Retry(cfg, s.q, s.held.value, ev.reason, ev.at).1.None?
    case _ =>
      || ev.HandlerFailed?
      || (ev.HandlerRetry? && s.held.Some? && Retry(cfg, s.q, s.held.value, ev.reason, ev.at).1.Some?)
  }

  lemma AsideEndsAs(cfg: Config, q: State, msg: Message, x: (Message, End))
    requires x in AsideEnds(cfg, q, msg)
    ensures x.1 == DroppedResend || x.1 == Evicted
  {
  }

  /** Each event ends messages under its own names only: a resend or an eviction only where a message was set aside. */
  lemma EndsAreNamed(cfg: Config, s: System, ev: Event, x: (Message, End))
    requires Enabled(s, ev) && x in Step(cfg, s, ev).ended && x !in s.ended
    ensures EndsAs(cfg, s, ev, x.1)
  {
    if ev.HandlerRetry? || ev.HandlerFailed? {
      if x in AsideEnds(cfg, s.q, s.held.value) {
        AsideEndsAs(cfg, s.q, s.held.value, x);
      }
    }
  }
}
