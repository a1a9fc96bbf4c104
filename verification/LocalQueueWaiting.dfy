/** Bounded waiting: how a queued entry moves towards the head of the line. */
module LocalQueueWaiting {
  import opened Wrappers
  import opened Sequences
  import opened LocalQueueSpec
  import opened LocalQueueSystem
  import opened LocalQueueStructure
  import opened LocalQueueAttempts
  import opened LocalQueueRuns

  function TakesIn(evs: seq<Event>): nat {
    if evs == [] then 0 else (if evs[0].Take? then 1 else 0) + TakesIn(evs[1..])
  }

  /** The step ends the queued entry of `key` without handling it. */
  predicate Drops(cfg: Config, s: System, ev: Event, key: Key)
    requires Enabled(s, ev)
  {
    || ev.LeadershipLost?
    || (s.held.Some? && s.held.value.key == key
        && (ev.HandlerFailed? || (ev.HandlerRetry? && Retry(cfg, s.q, s.held.value, ev.reason, ev.at).1.Some?)))
  }

  predicate DroppedIn(cfg: Config, s: System, evs: seq<Event>, key: Key)
    requires ValidRun(cfg, s, evs)
    decreases |evs|
  {
    evs != [] && (Drops(cfg, s, evs[0], key) || DroppedIn(cfg, Step(cfg, s, evs[0]), evs[1..], key))
  }

  /** One of the first `turns` takes of the run takes exactly `msg`. */
  predicate TakenWithin(cfg: Config, s: System, evs: seq<Event>, msg: Message, turns: nat)
    requires ValidRun(cfg, s, evs)
    decreases |evs|
  {
    && evs != []
    && var s' := Step(cfg, s, evs[0]);
       if evs[0].Take? then
         turns > 0 && (s'.held == Some(msg) || TakenWithin(cfg, s', evs[1..], msg, turns - 1))
       else
         TakenWithin(cfg, s', evs[1..], msg, turns)
  }

  predicate WaitsAt(q: State, key: Key, msg: Message, index: nat) {
    QueuedIndex(q.queued, key) == Some(index) && q.queued[index].msg == msg
  }

  /** Removing the entry of another key moves an entry forward by at most one. */
  lemma RemovalMovesForward(q: seq<Entry>, gone: Key, i: nat)
    requires NoRepeats(QueuedKeys(q)) && i < |q| && q[i].key != gone
    ensures var q' := WithoutKey(q, gone);
      && NoRepeats(QueuedKeys(q'))
      && exists i' :: 0 <= i' <= i && i' < |q'| && q'[i'] == q[i]
  {
    match QueuedIndex(q, gone) {
      case None => assert q[i] == q[i];
      case Some(j) =>
        var q' := RemoveAt(q, j);
        assert QueuedKeys(q') == RemoveAt(QueuedKeys(q), j);
        RemoveAtKeeps(QueuedKeys(q), j);
        assert q'[if i < j then i else i - 1] == q[i];
    }
  }

  lemma AsideMovesForward(cfg: Config, q: State, hand: InHand, msg: Message, cause: Cause, at: nat, index: nat)
    returns (next: nat)
    requires NoRepeats(QueuedKeys(q.queued)) && index < |q.queued| && q.queued[index].key != hand.key
    ensures var q' := SetAside(cfg, q, hand, msg, cause, at).0;
      next <= index && next < |q'.queued| && q'.queued[next] == q.queued[index]
  {
    RemovalMovesForward(q.queued, hand.key, index);
    var q' := SetAside(cfg, q, hand, msg, cause, at).0;
    next :| 0 <= next <= index && next < |q'.queued| && q'.queued[next] == q.queued[index];
  }

  lemma RetryMovesForward(cfg: Config, q: State, msg: Message, reason: string, at: nat, index: nat)
    returns (next: nat)
    requires NoRepeats(QueuedKeys(q.queued)) && index < |q.queued| && q.inFlight.Some?
    requires q.inFlight.value.key == q.queued[index].key ==> !AttemptsSpent(cfg, q.inFlight.value.attempts)
    ensures var q' := Retry(cfg, q, msg, reason, at).0;
      && next <= index && next < |q'.queued|
      && q'.queued[next].key == q.queued[index].key && q'.queued[next].msg == q.queued[index].msg
  {
    var hand := q.inFlight.value.(lastReason := Some(reason));
    if AttemptsSpent(cfg, hand.attempts) {
      next := AsideMovesForward(cfg, q.(inFlight := None), hand, msg, Exhausted, at, index);
    } else {
      next := index;
    }
  }

  lemma FailMovesForward(cfg: Config, q: State, msg: Message, cause: Cause, at: nat, index: nat)
    returns (next: nat)
    requires NoRepeats(QueuedKeys(q.queued)) && index < |q.queued| && q.inFlight.Some?
    requires q.inFlight.value.key != q.queued[index].key
    ensures var q' := Fail(cfg, q, msg, cause, at).0;
      next <= index && next < |q'.queued| && q'.queued[next] == q.queued[index]
  {
    var hand := if cause.Failed? then q.inFlight.value.(lastReason := Some(cause.reason)) else q.inFlight.value;
    next := AsideMovesForward(cfg, q.(inFlight := None), hand, msg, cause, at, index);
  }

  lemma OthersMoveForward(cfg: Config, s: System, ev: Event, index: nat) returns (next: nat)
    requires Enabled(s, ev) && index < |s.q.queued| && !(ev.Take? && index == 0)
    requires !ev.HandlerRetry? && !ev.HandlerFailed? && !ev.LeadershipLost?
    ensures var q' := Step(cfg, s, ev).q; next < |q'.queued| && q'.queued[next] == s.q.queued[index]
    ensures if ev.Take? then next + 1 == index else next == index
  {
    next := if ev.Take? then index - 1 else index;
  }

  /** One step: the entry is taken, or it stays with its payload and never moves back. */
  lemma StepMovesForward(cfg: Config, s: System, ev: Event, key: Key, msg: Message, index: nat) returns (next: nat)
    requires KeysDistinct(s.q) && HandsAgree(s) && Enabled(s, ev) && WaitsAt(s.q, key, msg, index)
    requires !Drops(cfg, s, ev, key)
    requires !(ev.Take? && index == 0)
    ensures WaitsAt(Step(cfg, s, ev).q, key, msg, next)
    ensures if ev.Take? then next + 1 == index else next <= index
  {
    StepKeepsKeysDistinct(cfg, s, ev);
    if ev.HandlerRetry? {
      next := RetryMovesForward(cfg, s.q, s.held.value, ev.reason, ev.at, index);
    } else if ev.HandlerFailed? {
      next := FailMovesForward(cfg, s.q, s.held.value, ev.cause, ev.at, index);
    } else {
      next := OthersMoveForward(cfg, s, ev, index);
    }
    IndexUnique(Step(cfg, s, ev).q.queued, next);
  }

  lemma TakeOfFirst(cfg: Config, s: System, key: Key, msg: Message)
    requires Enabled(s, Take) && WaitsAt(s.q, key, msg, 0)
    ensures Step(cfg, s, Take).held == Some(msg)
  {
  }

  predicate StillWaits(cfg: Config, s: System, evs: seq<Event>, key: Key, msg: Message, index: nat)
    requires ValidRun(cfg, s, evs)
  {
    var q := Run(cfg, s, evs).q;
    match QueuedIndex(q.queued, key)
    case Some(i) => q.queued[i].msg == msg && i + TakesIn(evs) <= index
    case None => false
  }

  lemma {:induction false} TakenWithinMore(cfg: Config, s: System, evs: seq<Event>, msg: Message, n: nat, m: nat)
    requires ValidRun(cfg, s, evs) && TakenWithin(cfg, s, evs, msg, n) && n <= m
    ensures TakenWithin(cfg, s, evs, msg, m)
    decreases |evs|
  {
    var s' := Step(cfg, s, evs[0]);
    if evs[0].Take? {
      if s'.held != Some(msg) {
        TakenWithinMore(cfg, s', evs[1..], msg, n - 1, m - 1);
      }
    } else {
      TakenWithinMore(cfg, s', evs[1..], msg, n, m);
    }
  }

  lemma TakenLater(cfg: Config, s: System, evs: seq<Event>, msg: Message, next: nat, index: nat)
    requires evs != [] && ValidRun(cfg, s, evs) && TakenWithin(cfg, Step(cfg, s, evs[0]), evs[1..], msg, next + 1)
    requires if evs[0].Take? then next + 1 == index else next <= index
    ensures TakenWithin(cfg, s, evs, msg, index + 1)
  {
    if !evs[0].Take? {
      TakenWithinMore(cfg, Step(cfg, s, evs[0]), evs[1..], msg, next + 1, index + 1);
    }
  }

  /**
   An entry at `index` in line: after any run its message has been taken by the
   (index+1)-th take, or was dropped, or still waits, one place nearer for
   every take.
   */
  lemma {:induction false} NeverMovesBack(cfg: Config, s: System, evs: seq<Event>, key: Key, msg: Message, index: nat)
    requires Structure(cfg, s) && ValidRun(cfg, s, evs) && WaitsAt(s.q, key, msg, index)
    ensures || TakenWithin(cfg, s, evs, msg, index + 1)
            || DroppedIn(cfg, s, evs, key)
            || StillWaits(cfg, s, evs, key, msg, index)
    decreases |evs|
  {
    if evs == [] || Drops(cfg, s, evs[0], key) {
    } else if evs[0].Take? && index == 0 {
      TakeOfFirst(cfg, s, key, msg);
    } else {
      var next := StepMovesForward(cfg, s, evs[0], key, msg, index);
      StructureStep(cfg, s, evs[0]);
      NeverMovesBack(cfg, Step(cfg, s, evs[0]), evs[1..], key, msg, next);
      if TakenWithin(cfg, Step(cfg, s, evs[0]), evs[1..], msg, next + 1) {
        TakenLater(cfg, s, evs, msg, next, index);
      }
    }
  }

  predicate KeepsLeading(evs: seq<Event>) {
    forall i :: 0 <= i < |evs| ==> !evs[i].LeadershipLost?
  }

  /** A waiting entry whose key is not in hand can only be dropped by a leadership loss, until it is taken. */
  lemma {:induction false} OnlyLossDrops(cfg: Config, s: System, evs: seq<Event>, key: Key, msg: Message, index: nat)
    requires Structure(cfg, s) && ValidRun(cfg, s, evs) && WaitsAt(s.q, key, msg, index) && !InHandKey(s.q, key)
    requires KeepsLeading(evs)
    ensures TakenWithin(cfg, s, evs, msg, index + 1) || StillWaits(cfg, s, evs, key, msg, index)
    decreases |evs|
  {
    if evs == [] {
    } else if evs[0].Take? && index == 0 {
      TakeOfFirst(cfg, s, key, msg);
    } else {
      assert !evs[0].LeadershipLost?;
      var s' := Step(cfg, s, evs[0]);
      var next := StepMovesForward(cfg, s, evs[0], key, msg, index);
      StructureStep(cfg, s, evs[0]);
      assert !InHandKey(s'.q, key);
      OnlyLossDrops(cfg, s', evs[1..], key, msg, next);
      if TakenWithin(cfg, s', evs[1..], msg, next + 1) {
        TakenLater(cfg, s, evs, msg, next, index);
      }
    }
  }

  lemma ReachableStructure(cfg: Config, evs: seq<Event>)
    requires ValidRun(cfg, START, evs)
    ensures Structure(cfg, Run(cfg, START, evs))
  {
    StartSatisfiesInvariant(cfg);
    RunKeepsInvariant(cfg, START, evs);
  }

  lemma StatusIsPosition(q: State, key: Key, position: nat)
    requires Status(q, key) == Queued(position)
    ensures 1 <= position <= |q.queued|
    ensures WaitsAt(q, key, q.queued[position - 1].msg, position - 1) && !InHandKey(q, key)
  {
  }

  /** `Queued(p)` is a promise: while leadership holds, the p-th following take at the latest takes that very message. */
  lemma QueuedPositionIsAPromise(cfg: Config, before: seq<Event>, evs: seq<Event>, key: Key, position: nat)
    requires ValidRun(cfg, START, before)
    requires Status(Run(cfg, START, before).q, key) == Queued(position)
    requires ValidRun(cfg, Run(cfg, START, before), evs) && KeepsLeading(evs)
    requires TakesIn(evs) >= position
    ensures var s := Run(cfg, START, before);
      && 1 <= position <= |s.q.queued| && s.q.queued[position - 1].key == key
      && TakenWithin(cfg, s, evs, s.q.queued[position - 1].msg, position)
  {
    var s := Run(cfg, START, before);
    ReachableStructure(cfg, before);
    StatusIsPosition(s.q, key, position);
    OnlyLossDrops(cfg, s, evs, key, s.q.queued[position - 1].msg, position - 1);
  }
}
