/** Attempt counts are `handle` calls: what every step keeps of the counts and the letters. */
module LocalQueueAttempts {
  import opened Wrappers
  import opened Sequences
  import opened LocalQueueSpec
  import opened LocalQueueSystem
  import opened LocalQueueStructure

  function Saturated(n: nat): nat {
    if n < U32_MAX then n else U32_MAX
  }

  predicate InHandKey(q: State, key: Key) {
    q.inFlight.Some? && q.inFlight.value.key == key
  }

  /** A resend of the key in hand starts from nothing; every other entry carries its key's credit. */
  predicate EntryExact(cfg: Config, q: State, credit: map<Key, Credit>, e: Entry) {
    var c := if InHandKey(q, e.key) then Credit(0, None) else CreditOf(credit, e.key);
    && e.attempts == Saturated(c.calls)
    && e.lastReason == c.reason
    && (cfg.maxAttempts.Some? ==> c.calls < cfg.maxAttempts.value)
  }

  predicate HandExact(cfg: Config, q: State, credit: map<Key, Credit>) {
    q.inFlight.Some? ==>
      var c := CreditOf(credit, q.inFlight.value.key);
      && q.inFlight.value.attempts == Saturated(c.calls)
      && q.inFlight.value.lastReason == c.reason
      && 1 <= c.calls
      && (cfg.maxAttempts.Some? ==> c.calls <= cfg.maxAttempts.value)
  }

  predicate LetterSound(cfg: Config, letter: Letter) {
    && 1 <= letter.attempts
    && (cfg.maxAttempts.Some? ==> letter.attempts <= cfg.maxAttempts.value)
    && (letter.cause.Exhausted? ==> cfg.maxAttempts == Some(letter.attempts) && letter.lastReason.Some?)
    && (letter.cause.Failed? ==> letter.lastReason == Some(letter.cause.reason))
  }

  ghost predicate AttemptsExact(cfg: Config, s: System) {
    && HandExact(cfg, s.q, s.credit)
    && (forall e :: e in s.q.queued ==> EntryExact(cfg, s.q, s.credit, e))
    && (forall key :: key in s.credit ==> InHandKey(s.q, key) || key in QueuedKeys(s.q.queued))
    && (forall d :: d in s.q.dead ==> LetterSound(cfg, d.letter))
  }

  lemma TakeKeepsAttempts(cfg: Config, s: System)
    requires KeysDistinct(s.q) && Keyed(s.q) && HandsAgree(s) && AttemptsExact(cfg, s) && Enabled(s, Take)
    ensures AttemptsExact(cfg, Step(cfg, s, Take))
  {
    var s' := Step(cfg, s, Take);
    var e0 := s.q.queued[0];
    assert e0 in s.q.queued;
    assert QueuedKeys(s.q.queued) == [e0.key] + QueuedKeys(s'.q.queued);
    forall e | e in s'.q.queued ensures EntryExact(cfg, s'.q, s'.credit, e) {
      var j :| 0 <= j < |s'.q.queued| && s'.q.queued[j] == e;
      assert s.q.queued[j + 1] == e;
      assert QueuedKeys(s.q.queued)[j + 1] == e.key && QueuedKeys(s.q.queued)[0] == e0.key;
      assert e.key != e0.key;
      assert EntryExact(cfg, s.q, s.credit, e);
    }
  }

  /** Adding a fresh entry for a key that is neither queued nor waiting with credit. */
  lemma FreshEntryKeepsAttempts(cfg: Config, s: System, s': System, e: Entry)
    requires AttemptsExact(cfg, s) && s'.credit == s.credit && s'.q.inFlight == s.q.inFlight
    requires s'.q.queued == s.q.queued + [e] && e == NewEntry(e.key, e.msg) && e.key !in QueuedKeys(s.q.queued)
    requires forall d :: d in s'.q.dead ==> d in s.q.dead
    ensures AttemptsExact(cfg, s')
  {
    assert QueuedKeys(s'.q.queued) == QueuedKeys(s.q.queued) + [e.key];
    forall f | f in s'.q.queued ensures EntryExact(cfg, s'.q, s'.credit, f) {
      if f in s.q.queued {
        assert EntryExact(cfg, s.q, s.credit, f);
      } else {
        assert f == e;
      }
    }
  }

  lemma ProducersKeepAttempts(cfg: Config, s: System, ev: Event)
    requires KeysDistinct(s.q) && AttemptsExact(cfg, s)
    requires ev.SendMessage? || ev.RequeueKey? || ev.ForgetKey?
    ensures AttemptsExact(cfg, Step(cfg, s, ev))
  {
    var s' := Step(cfg, s, ev);
    var key := match ev case SendMessage(msg) => msg.key case RequeueKey(key) => key case ForgetKey(key) => key;
    IndexIsMembership(s.q.queued, s.q.dead, key);
    if |s'.q.queued| > |s.q.queued| {
      FreshEntryKeepsAttempts(cfg, s, s', s'.q.queued[|s.q.queued|]);
    }
  }

  lemma ResendRemoved(q: seq<Entry>, key: Key)
    requires NoRepeats(QueuedKeys(q))
    ensures forall e :: e in WithoutKey(q, key) ==> e in q && e.key != key
    ensures forall k :: k in QueuedKeys(q) && k != key ==> k in QueuedKeys(WithoutKey(q, key))
  {
    var q' := WithoutKey(q, key);
    var index := QueuedIndex(q, key);
    if index.Some? {
      assert QueuedKeys(q)[index.value] == key;
      assert QueuedKeys(q') == RemoveAt(QueuedKeys(q), index.value);
      RemoveAtKeeps(QueuedKeys(q), index.value);
    }
    forall e | e in q' ensures e in q && e.key != key {
      var j :| 0 <= j < |q'| && q'[j] == e;
      assert QueuedKeys(q')[j] == e.key;
    }
  }

  /** The key in hand is gone, with any resend of it and its credit. */
  lemma HandGoneKeepsAttempts(cfg: Config, s: System, s': System, key: Key)
    requires AttemptsExact(cfg, s) && InHandKey(s.q, key)
    requires s'.q.inFlight.None? && s'.credit == s.credit - {key}
    requires forall e :: e in s'.q.queued ==> e in s.q.queued && e.key != key
    requires forall k :: k in QueuedKeys(s.q.queued) && k != key ==> k in QueuedKeys(s'.q.queued)
    requires forall d :: d in s'.q.dead ==> d in s.q.dead || LetterSound(cfg, d.letter)
    ensures AttemptsExact(cfg, s')
  {
  }

  lemma AsideLetters(cfg: Config, q: State, hand: InHand, msg: Message, cause: Cause, at: nat)
    ensures var (q', letter) := SetAside(cfg, q, hand, msg, cause, at);
      forall d :: d in q'.dead ==> d in q.dead || d.letter == letter
  {
  }

  lemma SetAsideKeepsAttempts(cfg: Config, s: System, s': System, hand: InHand, cause: Cause, at: nat)
    requires KeysDistinct(s.q) && AttemptsExact(cfg, s) && InHandKey(s.q, hand.key) && s.held.Some?
    requires s'.q == SetAside(cfg, s.q.(inFlight := None), hand, s.held.value, cause, at).0
    requires s'.credit == s.credit - {hand.key}
    requires LetterSound(cfg, Letter(cause, hand.attempts, hand.lastReason, at))
    ensures AttemptsExact(cfg, s')
  {
    ResendRemoved(s.q.queued, hand.key);
    AsideLetters(cfg, s.q.(inFlight := None), hand, s.held.value, cause, at);
    HandGoneKeepsAttempts(cfg, s, s', hand.key);
  }

  lemma RetryKeepsAttempts(cfg: Config, s: System, reason: string, at: nat)
    requires KeysDistinct(s.q) && HandsAgree(s) && AttemptsExact(cfg, s) && s.held.Some?
    requires !AttemptsSpent(cfg, s.q.inFlight.value.attempts)
    ensures AttemptsExact(cfg, Step(cfg, s, HandlerRetry(reason, at)))
  {
    var key := s.held.value.key;
    var s' := Step(cfg, s, HandlerRetry(reason, at));
    assert s'.credit == s.credit[key := CreditOf(s.credit, key).(reason := Some(reason))];
    IndexIsMembership(s.q.queued, s.q.dead, key);
    match QueuedIndex(s.q.queued, key) {
      case None =>
        assert QueuedKeys(s'.q.queued) == QueuedKeys(s.q.queued) + [key];
        forall e | e in s'.q.queued ensures EntryExact(cfg, s'.q, s'.credit, e) {
          if e in s.q.queued {
            assert EntryExact(cfg, s.q, s.credit, e);
            var j :| 0 <= j < |s.q.queued| && s.q.queued[j] == e;
            assert QueuedKeys(s.q.queued)[j] == e.key;
          }
        }
      case Some(i) =>
        assert QueuedKeys(s'.q.queued) == QueuedKeys(s.q.queued);
        forall e | e in s'.q.queued ensures EntryExact(cfg, s'.q, s'.credit, e) {
          var j :| 0 <= j < |s'.q.queued| && s'.q.queued[j] == e;
          if j != i {
            assert s.q.queued[j] == e;
            assert EntryExact(cfg, s.q, s.credit, e);
            assert QueuedKeys(s.q.queued)[j] != QueuedKeys(s.q.queued)[i];
          }
        }
    }
  }

  lemma SpentKeepsAttempts(cfg: Config, s: System, reason: string, at: nat)
    requires KeysDistinct(s.q) && HandsAgree(s) && AttemptsExact(cfg, s) && s.held.Some?
    requires AttemptsSpent(cfg, s.q.inFlight.value.attempts)
    ensures AttemptsExact(cfg, Step(cfg, s, HandlerRetry(reason, at)))
  {
    SetAsideKeepsAttempts(cfg, s, Step(cfg, s, HandlerRetry(reason, at)),
                          s.q.inFlight.value.(lastReason := Some(reason)), Exhausted, at);
  }

  lemma FailKeepsAttempts(cfg: Config, s: System, cause: Cause, at: nat)
    requires KeysDistinct(s.q) && HandsAgree(s) && AttemptsExact(cfg, s) && s.held.Some? && !cause.Exhausted?
    ensures AttemptsExact(cfg, Step(cfg, s, HandlerFailed(cause, at)))
  {
    var hand := if cause.Failed? then s.q.inFlight.value.(lastReason := Some(cause.reason)) else s.q.inFlight.value;
    SetAsideKeepsAttempts(cfg, s, Step(cfg, s, HandlerFailed(cause, at)), hand, cause, at);
  }

  lemma ReleaseKeepsAttempts(cfg: Config, s: System, ev: Event)
    requires Structure(cfg, s) && AttemptsExact(cfg, s) && Enabled(s, ev)
    requires ev.HandlerDone? || ev.Restart?
    ensures AttemptsExact(cfg, Step(cfg, s, ev))
  {
    var s' := Step(cfg, s, ev);
    forall e | e in s'.q.queued ensures EntryExact(cfg, s'.q, s'.credit, e) {
      assert EntryExact(cfg, s.q, s.credit, e);
    }
  }

  lemma StepKeepsAttempts(cfg: Config, s: System, ev: Event)
    requires Structure(cfg, s) && AttemptsExact(cfg, s) && Enabled(s, ev)
    ensures AttemptsExact(cfg, Step(cfg, s, ev))
  {
    match ev
    case Take => TakeKeepsAttempts(cfg, s);
    case HandlerDone => ReleaseKeepsAttempts(cfg, s, ev);
    case Restart => ReleaseKeepsAttempts(cfg, s, ev);
    case HandlerRetry(reason, at) =>
      if AttemptsSpent(cfg, s.q.inFlight.value.attempts) {
        SpentKeepsAttempts(cfg, s, reason, at);
      } else {
        RetryKeepsAttempts(cfg, s, reason, at);
      }
    case HandlerFailed(cause, at) => FailKeepsAttempts(cfg, s, cause, at);
    case LeadershipLost =>
    case _ => ProducersKeepAttempts(cfg, s, ev);
  }
}
