/**
 Runs of the local queue: producers and the executor take lock sections in any
 order. A `System` is the queue, the executor's local copy of the message in
 hand, and a ledger kept from what the environment saw: every message pushed,
 every message ended and why, and per key the `handle` calls since that key was
 last done, set aside or discarded.
 */
module LocalQueueSystem {
  import opened Wrappers
  import opened Sequences
  import opened LocalQueueSpec

  datatype Event =
    | SendMessage(msg: Message)
    | RequeueKey(key: Key)
    | ForgetKey(key: Key)
    | Take
    | HandlerDone
    | HandlerRetry(reason: string, at: nat)
    | HandlerFailed(cause: Cause, at: nat)
    | Restart
    | LeadershipLost

  datatype End = Finished | Superseded | DroppedResend | Evicted | Forgotten | Discarded | DroppedAtRestart

  /** `handle` calls for a key and the latest reason given for it. */
  datatype Credit = Credit(calls: nat, reason: Option<string>)

  datatype System = System(
    q: State,
    held: Option<Message>,
    pushed: multiset<Message>,
    ended: seq<(Message, End)>,
    credit: map<Key, Credit>)

  const START := System(EMPTY, None, multiset{}, [], map[])

  /** The executor reports an outcome only for a message it holds, and takes only when it holds none. */
  predicate Enabled(s: System, ev: Event) {
    match ev
    case Take => s.held.None? && s.q.queued != []
    case HandlerDone => s.held.Some?
    case HandlerRetry(_, _) => s.held.Some?
    case HandlerFailed(cause, _) => s.held.Some? && !cause.Exhausted?
    case _ => true
  }

  function CreditOf(credit: map<Key, Credit>, key: Key): Credit {
    if key in credit then credit[key] else Credit(0, None)
  }

  function QueuedMsgs(q: seq<Entry>): (r: seq<Message>)
    ensures |r| == |q|
  {
    Projected(q, (e: Entry) => e.msg)
  }

  function DeadMsgs(d: seq<Aside>): (r: seq<Message>)
    ensures |r| == |d|
  {
    Projected(d, (a: Aside) => a.msg)
  }

  function HeldMsgs(held: Option<Message>): seq<Message> {
    if held.Some? then [held.value] else []
  }

  function EndedMsgs(ended: seq<(Message, End)>): (r: seq<Message>)
    ensures |r| == |ended|
  {
    Projected(ended, (e: (Message, End)) => e.0)
  }

  function Ends(msgs: seq<Message>, end: End): (r: seq<(Message, End)>)
    ensures EndedMsgs(r) == msgs
  {
    var r := seq(|msgs|, i requires 0 <= i < |msgs| => (msgs[i], end));
    assert EndedMsgs(r) == msgs;
    r
  }

  function ResendOf(q: seq<Entry>, key: Key): seq<Message> {
    match QueuedIndex(q, key)
    case Some(i) => [q[i].msg]
    case None => []
  }

  /** Setting `msg` aside ends a queued resend of its key and whatever falls off the front of the dead set. */
  function AsideEnds(cfg: Config, q: State, msg: Message): seq<(Message, End)> {
    var aside := DeadMsgs(q.dead) + [msg];
    Ends(ResendOf(q.queued, msg.key), DroppedResend)
    + Ends(aside[..|aside| - |KeepNewest(aside, cfg.deadCapacity)|], Evicted)
  }

  function Step(cfg: Config, s: System, ev: Event): System
    requires Enabled(s, ev)
  {
    match ev
    case SendMessage(msg) =>
      var q := Send(cfg, s.q, msg).0;
      s.(q := q, pushed := if |q.queued| > |s.q.queued| then s.pushed + multiset{msg} else s.pushed)
    case RequeueKey(key) =>
      s.(q := Requeue(cfg, s.q, key).0)
    case ForgetKey(key) =>
      var gone := match DeadIndex(s.q.dead, key) case Some(i) => [s.q.dead[i].msg] case None => [];
      s.(q := Forget(s.q, key).0, ended := s.ended + Ends(gone, Forgotten))
    case Take =>
      var (q, taken) := Next(s.q);
      var msg := taken.value.0;
      var before := CreditOf(s.credit, msg.key);
      s.(q := q, held := Some(msg), credit := s.credit[msg.key := before.(calls := before.calls + 1)])
    case HandlerDone =>
      s.(q := ReleaseInFlight(s.q), held := None,
         ended := s.ended + Ends([s.held.value], Finished),
         credit := s.credit - {s.held.value.key})
    case HandlerRetry(reason, at) =>
      var msg := s.held.value;
      var (q, letter) := Retry(cfg, s.q, msg, reason, at);
      if letter.Some? then
        s.(q := q, held := None, ended := s.ended + AsideEnds(cfg, s.q, msg), credit := s.credit - {msg.key})
      else
        s.(q := q, held := None,
           ended := s.ended + Ends(if QueuedIndex(s.q.queued, msg.key).Some? then [msg] else [], Superseded),
           credit := s.credit[msg.key := CreditOf(s.credit, msg.key).(reason := Some(reason))])
    case HandlerFailed(cause, at) =>
      var msg := s.held.value;
      s.(q := Fail(cfg, s.q, msg, cause, at).0, held := None,
         ended := s.ended + AsideEnds(cfg, s.q, msg),
         credit := s.credit - {msg.key})
    case Restart =>
      s.(q := ReleaseInFlight(s.q), held := None,
         ended := s.ended + Ends(HeldMsgs(s.held), DroppedAtRestart),
         credit := if s.held.Some? then s.credit - {s.held.value.key} else s.credit)
    case LeadershipLost =>
      s.(q := Clear(s.q).0, held := None,
         ended := s.ended + Ends(QueuedMsgs(s.q.queued) + HeldMsgs(s.held) + DeadMsgs(s.q.dead), Discarded),
         credit := map[])
  }

  predicate ValidRun(cfg: Config, s: System, evs: seq<Event>)
    decreases |evs|
  {
    evs == [] || (Enabled(s, evs[0]) && ValidRun(cfg, Step(cfg, s, evs[0]), evs[1..]))
  }

  function Run(cfg: Config, s: System, evs: seq<Event>): System
    requires ValidRun(cfg, s, evs)
    decreases |evs|
  {
    if evs == [] then s else Run(cfg, Step(cfg, s, evs[0]), evs[1..])
  }
}
