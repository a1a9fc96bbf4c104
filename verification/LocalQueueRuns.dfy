/** What holds after every run from an empty queue. */
module LocalQueueRuns {
  import opened Wrappers
  import opened Sequences
  import opened LocalQueueSpec
  import opened LocalQueueSystem
  import opened LocalQueueStructure
  import opened LocalQueueConservation
  import opened LocalQueueAttempts

  ghost predicate Invariant(cfg: Config, s: System) {
    Structure(cfg, s) && Conserved(s) && AttemptsExact(cfg, s)
  }

  lemma StepKeepsInvariant(cfg: Config, s: System, ev: Event)
    requires Invariant(cfg, s) && Enabled(s, ev)
    ensures Invariant(cfg, Step(cfg, s, ev))
  {
    StructureStep(cfg, s, ev);
    StepConserves(cfg, s, ev);
    StepKeepsAttempts(cfg, s, ev);
  }

  lemma {:induction false} RunKeepsInvariant(cfg: Config, s: System, evs: seq<Event>)
    requires Invariant(cfg, s) && ValidRun(cfg, s, evs)
    ensures Invariant(cfg, Run(cfg, s, evs))
    decreases |evs|
  {
    if evs != [] {
      StepKeepsInvariant(cfg, s, evs[0]);
      RunKeepsInvariant(cfg, Step(cfg, s, evs[0]), evs[1..]);
    }
  }

  lemma EntriesCarryKeys(q: seq<Entry>, d: seq<Aside>)
    ensures forall e :: e in q ==> e.key in QueuedKeys(q)
    ensures forall a :: a in d ==> a.key in DeadKeys(d)
  {
    forall e | e in q ensures e.key in QueuedKeys(q) {
      var i :| 0 <= i < |q| && q[i] == e;
      assert QueuedKeys(q)[i] == e.key;
    }
    forall a | a in d ensures a.key in DeadKeys(d) {
      var i :| 0 <= i < |d| && d[i] == a;
      assert DeadKeys(d)[i] == a.key;
    }
  }

  lemma StartSatisfiesInvariant(cfg: Config)
    ensures Invariant(cfg, START)
  {
  }

  /** In every run from an empty queue: keys, bounds and the hand are as the module documentation says. */
  lemma StructureOnEveryRun(cfg: Config, evs: seq<Event>)
    requires ValidRun(cfg, START, evs)
    ensures var q := Run(cfg, START, evs).q;
      && NoRepeats(QueuedKeys(q.queued)) && NoRepeats(DeadKeys(q.dead))
      && (forall d, e :: d in q.dead && e in q.queued ==> d.key != e.key)
      && (forall d :: d in q.dead && q.inFlight.Some? ==> d.key != q.inFlight.value.key)
      && |q.queued| + (if q.inFlight.Some? then 1 else 0) <= cfg.capacity
      && |q.dead| <= cfg.deadCapacity
  {
    StartSatisfiesInvariant(cfg);
    RunKeepsInvariant(cfg, START, evs);
    var q := Run(cfg, START, evs).q;
    EntriesCarryKeys(q.queued, q.dead);
  }

  /** A message pushed once is queued, in hand, set aside or ended: exactly one of them, exactly once. */
  lemma EachMessageInOnePlace(cfg: Config, evs: seq<Event>, msg: Message)
    requires ValidRun(cfg, START, evs)
    ensures var s := Run(cfg, START, evs);
      s.pushed[msg] == multiset(QueuedMsgs(s.q.queued))[msg] + multiset(HeldMsgs(s.held))[msg]
                     + multiset(DeadMsgs(s.q.dead))[msg] + multiset(EndedMsgs(s.ended))[msg]
  {
    StartSatisfiesInvariant(cfg);
    RunKeepsInvariant(cfg, START, evs);
  }

  lemma ExactCounts(cfg: Config, s: System)
    requires HandsAgree(s) && AttemptsExact(cfg, s)
    ensures s.q.inFlight.Some? ==>
              s.q.inFlight.value.attempts == Saturated(CreditOf(s.credit, s.q.inFlight.value.key).calls)
    ensures forall e :: e in s.q.queued && !InHandKey(s.q, e.key) ==>
              e.attempts == Saturated(CreditOf(s.credit, e.key).calls)
    ensures cfg.maxAttempts.Some? ==> forall key :: key in s.credit ==> s.credit[key].calls <= cfg.maxAttempts.value
    ensures cfg.maxAttempts.Some? ==> forall e :: e in s.q.queued ==> e.attempts < cfg.maxAttempts.value
    ensures forall d :: d in s.q.dead && d.letter.cause.Exhausted? ==> cfg.maxAttempts == Some(d.letter.attempts)
  {
    forall key | key in s.credit && cfg.maxAttempts.Some? ensures s.credit[key].calls <= cfg.maxAttempts.value {
      if !InHandKey(s.q, key) {
        var j :| 0 <= j < |s.q.queued| && QueuedKeys(s.q.queued)[j] == key;
        assert EntryExact(cfg, s.q, s.credit, s.q.queued[j]);
      }
    }
    forall e | e in s.q.queued ensures EntryExact(cfg, s.q, s.credit, e) {}
  }

  /** `attempts` is the number of `handle` calls since the key's last clean slate, and never passes the limit. */
  lemma AttemptsAreHandleCalls(cfg: Config, evs: seq<Event>)
    requires ValidRun(cfg, START, evs)
    ensures var s := Run(cfg, START, evs);
      && (s.q.inFlight.Some? ==>
            s.q.inFlight.value.attempts == Saturated(CreditOf(s.credit, s.q.inFlight.value.key).calls))
      && (forall e :: e in s.q.queued && !InHandKey(s.q, e.key) ==>
            e.attempts == Saturated(CreditOf(s.credit, e.key).calls))
      && (cfg.maxAttempts.Some? ==> forall key :: key in s.credit ==> s.credit[key].calls <= cfg.maxAttempts.value)
      && (cfg.maxAttempts.Some? ==> forall e :: e in s.q.queued ==> e.attempts < cfg.maxAttempts.value)
      && (forall d :: d in s.q.dead && d.letter.cause.Exhausted? ==> cfg.maxAttempts == Some(d.letter.attempts))
  {
    StartSatisfiesInvariant(cfg);
    RunKeepsInvariant(cfg, START, evs);
    ExactCounts(cfg, Run(cfg, START, evs));
  }

  lemma RetryLetter(cfg: Config, q: State, credit: map<Key, Credit>, msg: Message, reason: string, at: nat)
    requires HandExact(cfg, q, credit) && q.inFlight.Some?
    ensures var c := CreditOf(credit, q.inFlight.value.key);
      Retry(cfg, q, msg, reason, at).1
      == (if cfg.maxAttempts == Some(c.calls) then Some(Letter(Exhausted, c.calls, Some(reason), at)) else None)
  {
  }

  lemma FailLetter(cfg: Config, q: State, credit: map<Key, Credit>, msg: Message, cause: Cause, at: nat)
    requires HandExact(cfg, q, credit) && q.inFlight.Some?
    ensures var c := CreditOf(credit, q.inFlight.value.key);
      Fail(cfg, q, msg, cause, at).1
      == Some(Letter(cause, Saturated(c.calls), if cause.Failed? then Some(cause.reason) else c.reason, at))
  {
  }

  /** A retry sets the message aside on the limit's own call and on no other, and a failure always does. */
  lemma OutcomeLetters(cfg: Config, evs: seq<Event>, reason: string, cause: Cause, at: nat)
    requires ValidRun(cfg, START, evs) && Run(cfg, START, evs).held.Some?
    ensures var s := Run(cfg, START, evs);
      var c := CreditOf(s.credit, s.held.value.key);
      && Retry(cfg, s.q, s.held.value, reason, at).1
         == (if cfg.maxAttempts == Some(c.calls) then Some(Letter(Exhausted, c.calls, Some(reason), at)) else None)
      && Fail(cfg, s.q, s.held.value, cause, at).1
         == Some(Letter(cause, Saturated(c.calls), if cause.Failed? then Some(cause.reason) else c.reason, at))
  {
    StartSatisfiesInvariant(cfg);
    RunKeepsInvariant(cfg, START, evs);
    var s := Run(cfg, START, evs);
    RetryLetter(cfg, s.q, s.credit, s.held.value, reason, at);
    FailLetter(cfg, s.q, s.credit, s.held.value, cause, at);
  }

  // ------------------------------------------------------------------------
  // What producers are told
  // ------------------------------------------------------------------------

  lemma SendAnswers(cfg: Config, q: State, msg: Message)
    requires KeysDistinct(q) && Bounded(cfg, q)
    ensures var (q', answer) := Send(cfg, q, msg);
      && (answer == DeadLettered <==> Status(q, msg.key).SetAsideAs?)
      && (answer == Accepted <==> msg.key in QueuedKeys(q'.queued))
      && (answer == Full <==> Load(q) == cfg.capacity && msg.key !in DeadKeys(q.dead) && msg.key !in QueuedKeys(q.queued))
      && (answer != Accepted ==> q' == q)
  {
    var q' := Send(cfg, q, msg).0;
    IndexIsMembership(q.queued, q.dead, msg.key);
    IndexIsMembership(q'.queued, q'.dead, msg.key);
    if q' != q {
      assert QueuedKeys(q'.queued)[|q.queued|] == msg.key;
    }
  }

  lemma RequeueAnswers(cfg: Config, q: State, key: Key)
    requires KeysDistinct(q) && Bounded(cfg, q)
    ensures var (q', roomy) := Requeue(cfg, q, key);
      && (!roomy <==> Status(q, key).SetAsideAs? && Load(q) == cfg.capacity)
      && (Status(q, key).SetAsideAs? && roomy ==> Status(q', key) == Queued(|q.queued| + 1))
      && (!roomy || !Status(q, key).SetAsideAs? ==> q' == q)
  {
    IndexIsMembership(q.queued, q.dead, key);
    var (q', roomy) := Requeue(cfg, q, key);
    if Status(q, key).SetAsideAs? && roomy {
      RequeueKeeps(cfg, q, key);
      assert QueuedKeys(q'.queued)[|q.queued|] == key;
      IndexUnique(q'.queued, |q.queued|);
    }
  }

  lemma ForgetAnswers(q: State, key: Key)
    requires KeysDistinct(q)
    ensures var (q', found) := Forget(q, key);
      && (found <==> Status(q, key).SetAsideAs?)
      && Status(q', key) == if found then Absent else Status(q, key)
  {
    IndexIsMembership(q.queued, q.dead, key);
    if DeadIndex(q.dead, key).Some? {
      ForgottenIsGone(q.dead, key);
    }
  }

  lemma ForgottenIsGone(d: seq<Aside>, key: Key)
    requires NoRepeats(DeadKeys(d)) && DeadIndex(d, key).Some?
    ensures DeadIndex(RemoveAt(d, DeadIndex(d, key).value), key).None?
  {
    var i := DeadIndex(d, key).value;
    assert DeadKeys(RemoveAt(d, i)) == RemoveAt(DeadKeys(d), i);
    RemoveAtKeeps(DeadKeys(d), i);
    IndexIsMembership([], RemoveAt(d, i), key);
  }

  /**
   After any run the answers of `send`, `requeue` and `forget` agree with
   `status` before and after: a refusal changes nothing, an acceptance leaves the
   key queued, a requeue at the end of the line, and a forgotten key is absent.
   */
  lemma AnswersAgreeWithStatus(cfg: Config, evs: seq<Event>, msg: Message)
    requires ValidRun(cfg, START, evs)
    ensures var q := Run(cfg, START, evs).q;
      var (sent, answer) := Send(cfg, q, msg);
      && (answer == DeadLettered <==> Status(q, msg.key).SetAsideAs?)
      && (answer == Accepted <==> msg.key in QueuedKeys(sent.queued))
      && (answer != Accepted ==> sent == q)
    ensures var q := Run(cfg, START, evs).q;
      var (requeued, roomy) := Requeue(cfg, q, msg.key);
      && (!roomy <==> Status(q, msg.key).SetAsideAs? && Load(q) == cfg.capacity)
      && (Status(q, msg.key).SetAsideAs? && roomy ==> Status(requeued, msg.key) == Queued(|q.queued| + 1))
    ensures var q := Run(cfg, START, evs).q;
      var (rest, found) := Forget(q, msg.key);
      && (found <==> Status(q, msg.key).SetAsideAs?)
      && Status(rest, msg.key) == if found then Absent else Status(q, msg.key)
  {
    StartSatisfiesInvariant(cfg);
    RunKeepsInvariant(cfg, START, evs);
    var q := Run(cfg, START, evs).q;
    SendAnswers(cfg, q, msg);
    RequeueAnswers(cfg, q, msg.key);
    ForgetAnswers(q, msg.key);
  }

  // ------------------------------------------------------------------------
  // What `status` tells
  // ------------------------------------------------------------------------

  /** The one message set aside under a key. */
  lemma AsideIsFound(q: State, d: Aside)
    requires KeysDistinct(q) && d in q.dead
    ensures var i := DeadIndex(q.dead, d.key); i.Some? && q.dead[i.value] == d
  {
    var j :| 0 <= j < |q.dead| && q.dead[j] == d;
    var i := DeadIndex(q.dead, d.key);
    assert i.Some? && DeadKeys(q.dead)[i.value] == DeadKeys(q.dead)[j];
  }

  predicate InHandUnder(q: State, key: Key) {
    q.inFlight.Some? && q.inFlight.value.key == key
  }

  ghost predicate AsideWith(q: State, key: Key, letter: Letter) {
    exists d :: d in q.dead && d.key == key && d.letter == letter
  }

  lemma StatusAnswers(q: State, key: Key)
    requires KeysDistinct(q)
    ensures Status(q, key) == InHandNow <==> InHandUnder(q, key)
    ensures forall p: nat :: Status(q, key) == Queued(p) <==>
              !InHandUnder(q, key) && 1 <= p <= |q.queued| && q.queued[p - 1].key == key
    ensures forall letter :: Status(q, key) == SetAsideAs(letter) <==> AsideWith(q, key, letter)
    ensures Status(q, key) == Absent <==>
              && !InHandUnder(q, key) && key !in QueuedKeys(q.queued) && key !in DeadKeys(q.dead)
  {
    IndexIsMembership(q.queued, q.dead, key);
    forall p: nat ensures Status(q, key) == Queued(p) <==>
                          !InHandUnder(q, key) && 1 <= p <= |q.queued| && q.queued[p - 1].key == key {
      if 1 <= p <= |q.queued| && q.queued[p - 1].key == key {
        IndexUnique(q.queued, p - 1);
      }
    }
    forall letter ensures Status(q, key) == SetAsideAs(letter) <==> AsideWith(q, key, letter) {
      SetAsideAnswer(q, key, letter);
    }
  }

  lemma SetAsideAnswer(q: State, key: Key, letter: Letter)
    requires KeysDistinct(q)
    ensures Status(q, key) == SetAsideAs(letter) <==> AsideWith(q, key, letter)
  {
    IndexIsMembership(q.queued, q.dead, key);
    if AsideWith(q, key, letter) {
      var d :| d in q.dead && d.key == key && d.letter == letter;
      AsideIsFound(q, d);
    }
  }

  /** After any run `status` says where a key stands: in hand, at its place in line, set aside under its own letter, or nowhere. */
  lemma StatusTellsWhere(cfg: Config, evs: seq<Event>, key: Key)
    requires ValidRun(cfg, START, evs)
    ensures var q := Run(cfg, START, evs).q;
      && (Status(q, key) == InHandNow <==> InHandUnder(q, key))
      && (forall p: nat :: Status(q, key) == Queued(p) <==>
            !InHandUnder(q, key) && 1 <= p <= |q.queued| && q.queued[p - 1].key == key)
      && (forall letter :: Status(q, key) == SetAsideAs(letter) <==> AsideWith(q, key, letter))
      && (Status(q, key) == Absent <==>
            !InHandUnder(q, key) && key !in QueuedKeys(q.queued) && key !in DeadKeys(q.dead))
  {
    StartSatisfiesInvariant(cfg);
    RunKeepsInvariant(cfg, START, evs);
    StatusAnswers(Run(cfg, START, evs).q, key);
  }

  /** A key that is set aside before and after keeps its letter when nothing else joined under it. */
  lemma KeptLetter(q: State, q': State, other: Key)
    requires KeysDistinct(q) && KeysDistinct(q') && forall d :: d in q'.dead && d.key == other ==> d in q.dead
    ensures Status(q', other).SetAsideAs? ==> Status(q', other) == Status(q, other)
  {
    if Status(q', other).SetAsideAs? {
      var kept := Status(q', other).letter;
      SetAsideAnswer(q', other, kept);
      var d :| d in q'.dead && d.key == other && d.letter == kept;
      SetAsideAnswer(q, other, kept);
    }
  }

  /** Setting a message aside: its letter is what `status` reports, and every other key still set aside keeps its own. */
  lemma AsideIsReported(cfg: Config, q: State, hand: InHand, msg: Message, cause: Cause, at: nat, other: Key)
    requires KeysDistinct(q) && q.inFlight.None? && hand.key !in DeadKeys(q.dead) && cfg.deadCapacity > 0
    ensures var (q', letter) := SetAside(cfg, q, hand, msg, cause, at);
      && Status(q', hand.key) == SetAsideAs(letter)
      && (other != hand.key && Status(q', other).SetAsideAs? ==> Status(q', other) == Status(q, other))
  {
    var (q', letter) := SetAside(cfg, q, hand, msg, cause, at);
    SetAsideKeeps(cfg, q, hand, msg, cause, at);
    assert q'.dead[|q'.dead| - 1] == Aside(hand.key, msg, letter);
    SetAsideAnswer(q', hand.key, letter);
    if other != hand.key {
      KeptLetter(q, q', other);
    }
  }

  lemma StatusWithoutHand(q: State, key: Key)
    requires KeysDistinct(q) && !InHandUnder(q, key)
    ensures Status(q.(inFlight := None), key) == Status(q, key)
  {
  }

  lemma FailIsReported(cfg: Config, q: State, msg: Message, cause: Cause, at: nat, other: Key)
    requires KeysDistinct(q) && q.inFlight.Some? && cfg.deadCapacity > 0
    ensures var (q', letter) := Fail(cfg, q, msg, cause, at);
      && letter.Some? && Status(q', q.inFlight.value.key) == SetAsideAs(letter.value)
      && (other != q.inFlight.value.key && Status(q', other).SetAsideAs? ==> Status(q', other) == Status(q, other))
  {
    var hand := if cause.Failed? then q.inFlight.value.(lastReason := Some(cause.reason)) else q.inFlight.value;
    AsideIsReported(cfg, q.(inFlight := None), hand, msg, cause, at, other);
    if other != hand.key {
      StatusWithoutHand(q, other);
    }
  }

  lemma RetryIsReported(cfg: Config, q: State, msg: Message, reason: string, at: nat, other: Key)
    requires KeysDistinct(q) && q.inFlight.Some? && cfg.deadCapacity > 0
    ensures var (q', letter) := Retry(cfg, q, msg, reason, at);
      letter.Some? ==>
        && Status(q', q.inFlight.value.key) == SetAsideAs(letter.value)
        && (other != q.inFlight.value.key && Status(q', other).SetAsideAs? ==> Status(q', other) == Status(q, other))
  {
    var hand := q.inFlight.value.(lastReason := Some(reason));
    if AttemptsSpent(cfg, hand.attempts) {
      AsideIsReported(cfg, q.(inFlight := None), hand, msg, Exhausted, at, other);
      if other != hand.key {
        StatusWithoutHand(q, other);
      }
    }
  }

  /**
   After any run, the letter a failure or a spent retry returns is what `status`
   reports for its key next, and every other key still set aside keeps its letter.
   */
  lemma LettersAreReported(cfg: Config, evs: seq<Event>, reason: string, cause: Cause, at: nat, other: Key)
    requires ValidRun(cfg, START, evs) && Run(cfg, START, evs).held.Some? && cfg.deadCapacity > 0
    ensures var s := Run(cfg, START, evs);
      var (q', letter) := Fail(cfg, s.q, s.held.value, cause, at);
      && letter.Some? && Status(q', s.held.value.key) == SetAsideAs(letter.value)
      && (other != s.held.value.key && Status(q', other).SetAsideAs? ==> Status(q', other) == Status(s.q, other))
    ensures var s := Run(cfg, START, evs);
      var (q', letter) := Retry(cfg, s.q, s.held.value, reason, at);
      letter.Some? ==>
        && Status(q', s.held.value.key) == SetAsideAs(letter.value)
        && (other != s.held.value.key && Status(q', other).SetAsideAs? ==> Status(q', other) == Status(s.q, other))
  {
    StartSatisfiesInvariant(cfg);
    RunKeepsInvariant(cfg, START, evs);
    var s := Run(cfg, START, evs);
    FailIsReported(cfg, s.q, s.held.value, cause, at, other);
    RetryIsReported(cfg, s.q, s.held.value, reason, at, other);
  }
}
