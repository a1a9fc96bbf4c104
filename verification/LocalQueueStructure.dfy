/** Distinct keys, bounds and the hand: what every step of a run keeps of the queue's shape. */
module LocalQueueStructure {
  import opened Wrappers
  import opened Sequences
  import opened LocalQueueSpec
  import opened LocalQueueSystem

  function QueuedKeys(q: seq<Entry>): (r: seq<Key>)
    ensures |r| == |q|
  {
    Projected(q, (e: Entry) => e.key)
  }

  function DeadKeys(d: seq<Aside>): (r: seq<Key>)
    ensures |r| == |d|
  {
    Projected(d, (a: Aside) => a.key)
  }

  ghost predicate KeysDistinct(q: State) {
    && NoRepeats(QueuedKeys(q.queued))
    && NoRepeats(DeadKeys(q.dead))
    && (forall key :: key in DeadKeys(q.dead) ==> key !in QueuedKeys(q.queued))
    && (q.inFlight.Some? ==> q.inFlight.value.key !in DeadKeys(q.dead))
  }

  predicate Bounded(cfg: Config, q: State) {
    Load(q) <= cfg.capacity && |q.dead| <= cfg.deadCapacity
  }

  ghost predicate Keyed(q: State) {
    && (forall e :: e in q.queued ==> e.key == e.msg.key)
    && (forall d :: d in q.dead ==> d.key == d.msg.key)
  }

  predicate HandsAgree(s: System) {
    && s.held.Some? == s.q.inFlight.Some?
    && (s.held.Some? ==> s.held.value.key == s.q.inFlight.value.key)
  }

  ghost predicate Structure(cfg: Config, s: System) {
    KeysDistinct(s.q) && Bounded(cfg, s.q) && Keyed(s.q) && HandsAgree(s)
  }

  lemma IndexIsMembership(q: seq<Entry>, d: seq<Aside>, key: Key)
    ensures QueuedIndex(q, key).Some? <==> key in QueuedKeys(q)
    ensures DeadIndex(d, key).Some? <==> key in DeadKeys(d)
  {
    match QueuedIndex(q, key) {
      case Some(i) => assert QueuedKeys(q)[i] == key;
      case None => assert forall j :: 0 <= j < |q| ==> QueuedKeys(q)[j] == q[j].key;
    }
    match DeadIndex(d, key) {
      case Some(i) => assert DeadKeys(d)[i] == key;
      case None => assert forall j :: 0 <= j < |d| ==> DeadKeys(d)[j] == d[j].key;
    }
  }

  lemma KeysOfParts(q: seq<Entry>, d: seq<Aside>, e: Entry, a: Aside)
    ensures QueuedKeys(q + [e]) == QueuedKeys(q) + [e.key]
    ensures DeadKeys(d + [a]) == DeadKeys(d) + [a.key]
    ensures forall i :: 0 <= i < |q| ==> QueuedKeys(RemoveAt(q, i)) == RemoveAt(QueuedKeys(q), i)
    ensures forall i :: 0 <= i < |d| ==> DeadKeys(RemoveAt(d, i)) == RemoveAt(DeadKeys(d), i)
    ensures forall n :: 0 <= n <= |q| ==> QueuedKeys(q[n..]) == QueuedKeys(q)[n..]
    ensures forall n :: 0 <= n <= |d| ==> DeadKeys(d[n..]) == DeadKeys(d)[n..]
  {
  }

  lemma SendKeeps(cfg: Config, q: State, msg: Message)
    requires KeysDistinct(q)
    ensures KeysDistinct(Send(cfg, q, msg).0)
  {
    IndexIsMembership(q.queued, q.dead, msg.key);
    KeysOfParts(q.queued, [], NewEntry(msg.key, msg), Aside(msg.key, msg, Letter(Exhausted, 0, None, 0)));
  }

  lemma ForgetKeeps(q: State, key: Key)
    requires KeysDistinct(q)
    ensures KeysDistinct(Forget(q, key).0)
  {
    match DeadIndex(q.dead, key) {
      case None =>
      case Some(i) =>
        KeysOfParts([], q.dead, Entry(key, q.dead[i].msg, 0, None), q.dead[i]);
        RemoveAtKeeps(DeadKeys(q.dead), i);
    }
  }

  lemma RequeueKeeps(cfg: Config, q: State, key: Key)
    requires KeysDistinct(q)
    ensures KeysDistinct(Requeue(cfg, q, key).0)
  {
    match DeadIndex(q.dead, key) {
      case None =>
      case Some(i) =>
        var aside := q.dead[i];
        assert DeadKeys(q.dead)[i] == aside.key;
        KeysOfParts(q.queued, q.dead, NewEntry(aside.key, aside.msg), aside);
        RemoveAtKeeps(DeadKeys(q.dead), i);
        AppendKeeps(QueuedKeys(q.queued), aside.key);
    }
  }

  lemma NextKeeps(q: State)
    requires KeysDistinct(q)
    ensures KeysDistinct(Next(q).0)
  {
    if q.queued != [] {
      assert QueuedKeys(q.queued)[0] == q.queued[0].key;
      assert QueuedKeys(q.queued[1..]) == QueuedKeys(q.queued)[1..];
    }
  }

  lemma SetAsideKeeps(cfg: Config, q: State, hand: InHand, msg: Message, cause: Cause, at: nat)
    requires KeysDistinct(q) && q.inFlight.None? && hand.key !in DeadKeys(q.dead)
    ensures KeysDistinct(SetAside(cfg, q, hand, msg, cause, at).0)
  {
    var (after, letter) := SetAside(cfg, q, hand, msg, cause, at);
    var full := q.dead + [Aside(hand.key, msg, letter)];
    KeysOfParts(q.queued, q.dead, Entry(hand.key, msg, 0, None), Aside(hand.key, msg, letter));
    AppendKeeps(DeadKeys(q.dead), hand.key);
    KeysOfParts(q.queued, full, Entry(hand.key, msg, 0, None), Aside(hand.key, msg, letter));
    DropKeeps(DeadKeys(full), |full| - |after.dead|);
    IndexIsMembership(q.queued, q.dead, hand.key);
    match QueuedIndex(q.queued, hand.key) {
      case None =>
      case Some(i) =>
        assert QueuedKeys(q.queued)[i] == hand.key;
        RemoveAtKeeps(QueuedKeys(q.queued), i);
    }
  }

  lemma RetryKeeps(cfg: Config, q: State, msg: Message, reason: string, at: nat)
    requires KeysDistinct(q)
    ensures KeysDistinct(Retry(cfg, q, msg, reason, at).0)
  {
    if q.inFlight.Some? {
      var hand := q.inFlight.value.(lastReason := Some(reason));
      if AttemptsSpent(cfg, hand.attempts) {
        SetAsideKeeps(cfg, q.(inFlight := None), hand, msg, Exhausted, at);
      } else {
        IndexIsMembership(q.queued, q.dead, hand.key);
        match QueuedIndex(q.queued, hand.key) {
          case None =>
            KeysOfParts(q.queued, [], Entry(hand.key, msg, 0, None), Aside(hand.key, msg, Letter(Exhausted, 0, None, 0)));
            assert Retry(cfg, q, msg, reason, at).0.queued
                == q.queued + [Entry(hand.key, msg, hand.attempts, hand.lastReason)];
            KeysOfParts(q.queued, [], Entry(hand.key, msg, hand.attempts, hand.lastReason),
                        Aside(hand.key, msg, Letter(Exhausted, 0, None, 0)));
            AppendKeeps(QueuedKeys(q.queued), hand.key);
          case Some(i) =>
            assert QueuedKeys(Retry(cfg, q, msg, reason, at).0.queued) == QueuedKeys(q.queued);
        }
      }
    }
  }

  lemma FailKeeps(cfg: Config, q: State, msg: Message, cause: Cause, at: nat)
    requires KeysDistinct(q)
    ensures KeysDistinct(Fail(cfg, q, msg, cause, at).0)
  {
    if q.inFlight.Some? {
      var hand := if cause.Failed? then q.inFlight.value.(lastReason := Some(cause.reason)) else q.inFlight.value;
      SetAsideKeeps(cfg, q.(inFlight := None), hand, msg, cause, at);
    }
  }

  lemma StepKeepsKeysDistinct(cfg: Config, s: System, ev: Event)
    requires KeysDistinct(s.q) && Enabled(s, ev)
    ensures KeysDistinct(Step(cfg, s, ev).q)
  {
    match ev
    case SendMessage(msg) => SendKeeps(cfg, s.q, msg);
    case RequeueKey(key) => RequeueKeeps(cfg, s.q, key);
    case ForgetKey(key) => ForgetKeeps(s.q, key);
    case Take => NextKeeps(s.q);
    case HandlerRetry(reason, at) => RetryKeeps(cfg, s.q, s.held.value, reason, at);
    case HandlerFailed(cause, at) => FailKeeps(cfg, s.q, s.held.value, cause, at);
    case _ =>
  }

  lemma OutcomesKeepBounds(cfg: Config, q: State, msg: Message, reason: string, cause: Cause, at: nat)
    requires Bounded(cfg, q)
    ensures Bounded(cfg, Retry(cfg, q, msg, reason, at).0)
    ensures Bounded(cfg, Fail(cfg, q, msg, cause, at).0)
  {
    if q.inFlight.Some? {
      var freed := q.(inFlight := None);
      var hand := q.inFlight.value;
      AsideKeepsBounds(cfg, freed, hand.(lastReason := Some(reason)), msg, Exhausted, at);
      AsideKeepsBounds(cfg, freed, if cause.Failed? then hand.(lastReason := Some(cause.reason)) else hand, msg, cause, at);
    }
  }

  lemma AsideKeepsBounds(cfg: Config, q: State, hand: InHand, msg: Message, cause: Cause, at: nat)
    requires Bounded(cfg, q)
    ensures Bounded(cfg, SetAside(cfg, q, hand, msg, cause, at).0)
  {
  }

  lemma ProducersKeepBounds(cfg: Config, q: State, msg: Message, key: Key)
    requires Bounded(cfg, q)
    ensures Bounded(cfg, Send(cfg, q, msg).0)
    ensures Bounded(cfg, Requeue(cfg, q, key).0)
    ensures Bounded(cfg, Forget(q, key).0)
  {
  }

  lemma StepKeepsBounds(cfg: Config, s: System, ev: Event)
    requires Bounded(cfg, s.q) && Enabled(s, ev) && HandsAgree(s)
    ensures Bounded(cfg, Step(cfg, s, ev).q)
  {
    match ev
    case SendMessage(msg) => ProducersKeepBounds(cfg, s.q, msg, msg.key);
    case RequeueKey(key) => ProducersKeepBounds(cfg, s.q, Message(key, ""), key);
    case ForgetKey(key) => ProducersKeepBounds(cfg, s.q, Message(key, ""), key);
    case HandlerRetry(reason, at) => OutcomesKeepBounds(cfg, s.q, s.held.value, reason, Exhausted, at);
    case HandlerFailed(cause, at) => OutcomesKeepBounds(cfg, s.q, s.held.value, "", cause, at);
    case _ =>
  }

  lemma SetAsideKeepsKeyed(cfg: Config, q: State, hand: InHand, msg: Message, cause: Cause, at: nat)
    requires Keyed(q) && hand.key == msg.key
    ensures Keyed(SetAside(cfg, q, hand, msg, cause, at).0)
  {
  }

  lemma RetryKeepsKeyed(cfg: Config, q: State, msg: Message, reason: string, at: nat)
    requires Keyed(q) && (q.inFlight.Some? ==> q.inFlight.value.key == msg.key)
    ensures Keyed(Retry(cfg, q, msg, reason, at).0)
  {
    if q.inFlight.Some? {
      var hand := q.inFlight.value.(lastReason := Some(reason));
      SetAsideKeepsKeyed(cfg, q.(inFlight := None), hand, msg, Exhausted, at);
      match QueuedIndex(q.queued, hand.key) {
        case None =>
        case Some(i) =>
          assert q.queued[i] in q.queued;
          var after := Retry(cfg, q, msg, reason, at).0;
          forall e | e in after.queued && !AttemptsSpent(cfg, hand.attempts) ensures e.key == e.msg.key {
            var j :| 0 <= j < |after.queued| && after.queued[j] == e;
            assert q.queued[j] in q.queued;
          }
      }
    }
  }

  lemma StepKeepsKeyed(cfg: Config, s: System, ev: Event)
    requires Keyed(s.q) && HandsAgree(s) && Enabled(s, ev)
    ensures Keyed(Step(cfg, s, ev).q)
  {
    match ev
    case HandlerRetry(reason, at) => RetryKeepsKeyed(cfg, s.q, s.held.value, reason, at);
    case HandlerFailed(cause, at) =>
      var hand := if cause.Failed? then s.q.inFlight.value.(lastReason := Some(cause.reason)) else s.q.inFlight.value;
      SetAsideKeepsKeyed(cfg, s.q.(inFlight := None), hand, s.held.value, cause, at);
    case _ =>
  }

  lemma StepKeepsHands(cfg: Config, s: System, ev: Event)
    requires Keyed(s.q) && HandsAgree(s) && Enabled(s, ev)
    ensures HandsAgree(Step(cfg, s, ev))
  {
  }

  lemma StructureStep(cfg: Config, s: System, ev: Event)
    requires Structure(cfg, s) && Enabled(s, ev)
    ensures Structure(cfg, Step(cfg, s, ev))
  {
    StepKeepsKeysDistinct(cfg, s, ev);
    StepKeepsBounds(cfg, s, ev);
    StepKeepsKeyed(cfg, s, ev);
    StepKeepsHands(cfg, s, ev);
  }

  lemma SameKeySameEntry(q: seq<Entry>, i: nat, j: nat)
    requires NoRepeats(QueuedKeys(q)) && i < |q| && j < |q| && q[i].key == q[j].key
    ensures i == j
  {
    assert QueuedKeys(q)[i] == QueuedKeys(q)[j];
  }

  lemma IndexUnique(q: seq<Entry>, i: nat)
    requires NoRepeats(QueuedKeys(q)) && i < |q|
    ensures QueuedIndex(q, q[i].key) == Some(i)
  {
    var found := QueuedIndex(q, q[i].key);
    assert found.Some?;
    SameKeySameEntry(q, i, found.value);
  }
}
