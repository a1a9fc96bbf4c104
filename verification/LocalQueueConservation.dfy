/** Every message pushed is in exactly one place or has ended once: what every step keeps of the ledger. */
module LocalQueueConservation {
  import opened Wrappers
  import opened Sequences
  import opened LocalQueueSpec
  import opened LocalQueueSystem
  import opened LocalQueueStructure

  /** Every place a pushed message can be. */
  function Places(s: System): multiset<Message> {
    multiset(QueuedMsgs(s.q.queued)) + multiset(HeldMsgs(s.held)) + multiset(DeadMsgs(s.q.dead))
    + multiset(EndedMsgs(s.ended))
  }

  predicate Conserved(s: System) {
    s.pushed == Places(s)
  }

  lemma MsgsOfParts(q: seq<Entry>, d: seq<Aside>, e: Entry, a: Aside)
    ensures QueuedMsgs(q + [e]) == QueuedMsgs(q) + [e.msg]
    ensures DeadMsgs(d + [a]) == DeadMsgs(d) + [a.msg]
    ensures forall i :: 0 <= i < |q| ==> QueuedMsgs(RemoveAt(q, i)) == RemoveAt(QueuedMsgs(q), i)
    ensures forall i :: 0 <= i < |d| ==> DeadMsgs(RemoveAt(d, i)) == RemoveAt(DeadMsgs(d), i)
    ensures forall n :: 0 <= n <= |q| ==> QueuedMsgs(q[n..]) == QueuedMsgs(q)[n..]
    ensures forall n :: 0 <= n <= |d| ==> DeadMsgs(d[n..]) == DeadMsgs(d)[n..]
  {
  }

  lemma EndedParts(ended: seq<(Message, End)>, more: seq<(Message, End)>)
    ensures EndedMsgs(ended + more) == EndedMsgs(ended) + EndedMsgs(more)
  {
  }

  lemma RemovedOne<T>(s: seq<T>, i: nat)
    requires i < |s|
    ensures multiset(s) == multiset(RemoveAt(s, i)) + multiset{s[i]}
  {
    assert s == s[..i] + [s[i]] + s[i + 1..];
  }

  lemma PlacesFollow(s: System, s': System)
    requires s'.held == s.held && s'.ended == s.ended
    requires multiset(QueuedMsgs(s'.q.queued)) + multiset(DeadMsgs(s'.q.dead))
          == multiset(QueuedMsgs(s.q.queued)) + multiset(DeadMsgs(s.q.dead))
    ensures Places(s') == Places(s)
  {
    var q, d, h, e := multiset(QueuedMsgs(s.q.queued)), multiset(DeadMsgs(s.q.dead)),
                      multiset(HeldMsgs(s.held)), multiset(EndedMsgs(s.ended));
    var q', d' := multiset(QueuedMsgs(s'.q.queued)), multiset(DeadMsgs(s'.q.dead));
    assert q + h + d + e == (q + d) + (h + e);
    assert q' + h + d' + e == (q' + d') + (h + e);
  }

  lemma SendConserves(cfg: Config, q: State, msg: Message)
    ensures var q' := Send(cfg, q, msg).0;
      && q'.dead == q.dead
      && (QueuedMsgs(q'.queued) == if |q'.queued| > |q.queued| then QueuedMsgs(q.queued) + [msg] else QueuedMsgs(q.queued))
  {
  }

  lemma RequeueConserves(cfg: Config, q: State, key: Key)
    ensures var q' := Requeue(cfg, q, key).0;
      multiset(QueuedMsgs(q'.queued)) + multiset(DeadMsgs(q'.dead))
      == multiset(QueuedMsgs(q.queued)) + multiset(DeadMsgs(q.dead))
  {
    match DeadIndex(q.dead, key) {
      case None =>
      case Some(i) =>
        var aside := q.dead[i];
        MsgsOfParts(q.queued, q.dead, NewEntry(aside.key, aside.msg), aside);
        RemovedOne(DeadMsgs(q.dead), i);
    }
  }

  lemma EntryLeaves(q: seq<Entry>, i: nat)
    requires i < |q|
    ensures multiset(QueuedMsgs(q)) == multiset(QueuedMsgs(RemoveAt(q, i))) + multiset{q[i].msg}
  {
    assert QueuedMsgs(RemoveAt(q, i)) == RemoveAt(QueuedMsgs(q), i);
    RemovedOne(QueuedMsgs(q), i);
  }

  lemma ResendLeaves(q: seq<Entry>, key: Key)
    ensures multiset(QueuedMsgs(q)) == multiset(QueuedMsgs(WithoutKey(q, key))) + multiset(ResendOf(q, key))
  {
    var index := QueuedIndex(q, key);
    if index.Some? {
      EntryLeaves(q, index.value);
    }
  }

  lemma EvictionSplits(d: seq<Aside>, limit: nat)
    ensures var kept := KeepNewest(d, limit);
      multiset(DeadMsgs(d)) == multiset(DeadMsgs(d)[..|d| - |kept|]) + multiset(DeadMsgs(kept))
  {
    var kept := KeepNewest(d, limit);
    assert DeadMsgs(kept) == DeadMsgs(d)[|d| - |kept|..];
    assert DeadMsgs(d) == DeadMsgs(d)[..|d| - |kept|] + DeadMsgs(kept);
  }

  lemma AsideEndsAre(cfg: Config, q: State, msg: Message)
    ensures var aside := DeadMsgs(q.dead) + [msg];
      EndedMsgs(AsideEnds(cfg, q, msg))
      == ResendOf(q.queued, msg.key) + aside[..|aside| - |KeepNewest(aside, cfg.deadCapacity)|]
  {
  }

  lemma Exchange(q: multiset<Message>, q': multiset<Message>, r: multiset<Message>,
                 d: multiset<Message>, e: multiset<Message>, d': multiset<Message>)
    requires q == q' + r && d == e + d'
    ensures q + d == (q' + d') + (r + e)
  {
  }

  lemma AsideDead(d: seq<Aside>, aside: Aside, limit: nat)
    ensures var msgs, kept := DeadMsgs(d) + [aside.msg], KeepNewest(d + [aside], limit);
      && |kept| == |KeepNewest(msgs, limit)|
      && multiset(DeadMsgs(d)) + multiset{aside.msg} == multiset(msgs[..|msgs| - |kept|]) + multiset(DeadMsgs(kept))
  {
    EvictionSplits(d + [aside], limit);
    DeadAppended(d, aside);
    OneMore(DeadMsgs(d), aside.msg);
  }

  lemma DeadAppended(d: seq<Aside>, aside: Aside)
    ensures DeadMsgs(d + [aside]) == DeadMsgs(d) + [aside.msg]
  {
  }

  lemma OneMore(msgs: seq<Message>, msg: Message)
    ensures multiset(msgs + [msg]) == multiset(msgs) + multiset{msg}
  {
  }

  lemma SetAsideConserves(cfg: Config, q: State, hand: InHand, msg: Message, cause: Cause, at: nat)
    requires hand.key == msg.key
    ensures var q' := SetAside(cfg, q, hand, msg, cause, at).0;
      multiset(QueuedMsgs(q.queued)) + (multiset(DeadMsgs(q.dead)) + multiset{msg})
      == (multiset(QueuedMsgs(q'.queued)) + multiset(DeadMsgs(q'.dead))) + multiset(EndedMsgs(AsideEnds(cfg, q, msg)))
  {
    var aside := DeadMsgs(q.dead) + [msg];
    var evicted := aside[..|aside| - |KeepNewest(aside, cfg.deadCapacity)|];
    var resend := ResendOf(q.queued, msg.key);
    ResendLeaves(q.queued, hand.key);
    AsideDead(q.dead, Aside(hand.key, msg, Letter(cause, hand.attempts, hand.lastReason, at)), cfg.deadCapacity);
    AsideEndsAre(cfg, q, msg);
    Exchange(multiset(QueuedMsgs(q.queued)), multiset(QueuedMsgs(WithoutKey(q.queued, hand.key))), multiset(resend),
             multiset(DeadMsgs(q.dead)) + multiset{msg}, multiset(evicted),
             multiset(DeadMsgs(SetAside(cfg, q, hand, msg, cause, at).0.dead)));
    assert multiset(resend + evicted) == multiset(resend) + multiset(evicted);
  }

  lemma RegroupPlaces(q: multiset<Message>, h: multiset<Message>, d: multiset<Message>, e: multiset<Message>,
                q': multiset<Message>, d': multiset<Message>, x: multiset<Message>)
    requires q + (d + h) == (q' + d') + x
    ensures q + h + d + e == q' + d' + (e + x)
  {
    assert q + h + d + e == (q + (d + h)) + e;
    assert q' + d' + (e + x) == ((q' + d') + x) + e;
  }

  /** The ledger's sum after a step that empties the hand and logs `ends`. */
  lemma HandEmptied(s: System, s': System, ends: seq<(Message, End)>)
    requires Conserved(s) && s.held.Some? && s'.held.None? && s'.pushed == s.pushed && s'.ended == s.ended + ends
    requires multiset(QueuedMsgs(s.q.queued)) + (multiset(DeadMsgs(s.q.dead)) + multiset{s.held.value})
          == (multiset(QueuedMsgs(s'.q.queued)) + multiset(DeadMsgs(s'.q.dead))) + multiset(EndedMsgs(ends))
    ensures Conserved(s')
  {
    EndedParts(s.ended, ends);
    RegroupPlaces(multiset(QueuedMsgs(s.q.queued)), multiset{s.held.value}, multiset(DeadMsgs(s.q.dead)),
            multiset(EndedMsgs(s.ended)), multiset(QueuedMsgs(s'.q.queued)), multiset(DeadMsgs(s'.q.dead)),
            multiset(EndedMsgs(ends)));
    assert multiset(HeldMsgs(s.held)) == multiset{s.held.value} && multiset(HeldMsgs(s'.held)) == multiset{};
    assert EndedMsgs(s'.ended) == EndedMsgs(s.ended) + EndedMsgs(ends);
  }

  lemma RetriedMsgs(cfg: Config, q: State, msg: Message, reason: string, at: nat)
    requires q.inFlight.Some? && q.inFlight.value.key == msg.key && !AttemptsSpent(cfg, q.inFlight.value.attempts)
    ensures var (q', letter) := Retry(cfg, q, msg, reason, at);
      && letter.None? && q'.dead == q.dead
      && QueuedMsgs(q'.queued) ==
         if QueuedIndex(q.queued, msg.key).None? then QueuedMsgs(q.queued) + [msg] else QueuedMsgs(q.queued)
  {
  }

  lemma RetriedConserves(cfg: Config, s: System, reason: string, at: nat)
    requires HandsAgree(s) && s.held.Some? && Conserved(s) && !AttemptsSpent(cfg, s.q.inFlight.value.attempts)
    ensures Conserved(Step(cfg, s, HandlerRetry(reason, at)))
  {
    var msg := s.held.value;
    RetriedMsgs(cfg, s.q, msg, reason, at);
    if QueuedIndex(s.q.queued, msg.key).None? {
      OneMore(QueuedMsgs(s.q.queued), msg);
      assert Ends([], Superseded) == [];
      HandEmptied(s, Step(cfg, s, HandlerRetry(reason, at)), Ends([], Superseded));
    } else {
      HandEmptied(s, Step(cfg, s, HandlerRetry(reason, at)), Ends([msg], Superseded));
    }
  }

  lemma SpentConserves(cfg: Config, s: System, reason: string, at: nat)
    requires HandsAgree(s) && s.held.Some? && Conserved(s) && AttemptsSpent(cfg, s.q.inFlight.value.attempts)
    ensures Conserved(Step(cfg, s, HandlerRetry(reason, at)))
  {
    var msg := s.held.value;
    var freed := s.q.(inFlight := None);
    var hand := s.q.inFlight.value.(lastReason := Some(reason));
    var s' := Step(cfg, s, HandlerRetry(reason, at));
    SetAsideConserves(cfg, freed, hand, msg, Exhausted, at);
    assert s'.q == SetAside(cfg, freed, hand, msg, Exhausted, at).0;
    assert AsideEnds(cfg, freed, msg) == AsideEnds(cfg, s.q, msg);
    HandEmptied(s, s', AsideEnds(cfg, s.q, msg));
  }

  lemma FailConserves(cfg: Config, s: System, cause: Cause, at: nat)
    requires HandsAgree(s) && s.held.Some? && Conserved(s) && !cause.Exhausted?
    ensures Conserved(Step(cfg, s, HandlerFailed(cause, at)))
  {
    var msg := s.held.value;
    var freed := s.q.(inFlight := None);
    var hand := if cause.Failed? then s.q.inFlight.value.(lastReason := Some(cause.reason)) else s.q.inFlight.value;
    var s' := Step(cfg, s, HandlerFailed(cause, at));
    SetAsideConserves(cfg, freed, hand, msg, cause, at);
    assert s'.q == SetAside(cfg, freed, hand, msg, cause, at).0;
    assert AsideEnds(cfg, freed, msg) == AsideEnds(cfg, s.q, msg);
    HandEmptied(s, s', AsideEnds(cfg, s.q, msg));
  }

  lemma DeadToEnded(s: System, s': System, msg: Message)
    requires Conserved(s) && s'.pushed == s.pushed && s'.held == s.held && s'.q.queued == s.q.queued
    requires multiset(DeadMsgs(s.q.dead)) == multiset(DeadMsgs(s'.q.dead)) + multiset{msg}
    requires multiset(EndedMsgs(s'.ended)) == multiset(EndedMsgs(s.ended)) + multiset{msg}
    ensures Conserved(s')
  {
  }

  lemma AsideLeaves(d: seq<Aside>, i: nat)
    requires i < |d|
    ensures multiset(DeadMsgs(d)) == multiset(DeadMsgs(RemoveAt(d, i))) + multiset{d[i].msg}
  {
    assert DeadMsgs(RemoveAt(d, i)) == RemoveAt(DeadMsgs(d), i);
    RemovedOne(DeadMsgs(d), i);
  }

  lemma ForgetConserves(cfg: Config, s: System, key: Key)
    requires Conserved(s)
    ensures Conserved(Step(cfg, s, ForgetKey(key)))
  {
    var s' := Step(cfg, s, ForgetKey(key));
    var index := DeadIndex(s.q.dead, key);
    if index.None? {
      assert |Ends([], Forgotten)| == 0;
      assert s'.ended == s.ended;
    } else {
      var msg := s.q.dead[index.value].msg;
      EndedParts(s.ended, Ends([msg], Forgotten));
      AsideLeaves(s.q.dead, index.value);
      DeadToEnded(s, s', msg);
    }
  }

  lemma LossConserves(cfg: Config, s: System)
    requires Conserved(s)
    ensures Conserved(Step(cfg, s, LeadershipLost))
  {
    var s' := Step(cfg, s, LeadershipLost);
    var gone := QueuedMsgs(s.q.queued) + HeldMsgs(s.held) + DeadMsgs(s.q.dead);
    EndedParts(s.ended, Ends(gone, Discarded));
    assert QueuedMsgs(s'.q.queued) == [] && DeadMsgs(s'.q.dead) == [] && HeldMsgs(s'.held) == [];
  }

  lemma SentConserves(cfg: Config, s: System, msg: Message)
    requires Conserved(s)
    ensures Conserved(Step(cfg, s, SendMessage(msg)))
  {
    SendConserves(cfg, s.q, msg);
  }

  lemma FirstLeaves(q: seq<Entry>)
    requires q != []
    ensures multiset(QueuedMsgs(q)) == multiset(QueuedMsgs(q[1..])) + multiset{q[0].msg}
  {
    assert QueuedMsgs(q) == [q[0].msg] + QueuedMsgs(q[1..]);
  }

  lemma TakeConserves(cfg: Config, s: System)
    requires Conserved(s) && Enabled(s, Take)
    ensures Conserved(Step(cfg, s, Take))
  {
    FirstLeaves(s.q.queued);
    assert HeldMsgs(s.held) == [] && HeldMsgs(Some(s.q.queued[0].msg)) == [s.q.queued[0].msg];
  }

  lemma StepConserves(cfg: Config, s: System, ev: Event)
    requires HandsAgree(s) && Enabled(s, ev) && Conserved(s)
    ensures Conserved(Step(cfg, s, ev))
  {
    match ev
    case SendMessage(msg) => SentConserves(cfg, s, msg);
    case RequeueKey(key) =>
      RequeueConserves(cfg, s.q, key);
      PlacesFollow(s, Step(cfg, s, ev));
    case ForgetKey(key) => ForgetConserves(cfg, s, key);
    case Take => TakeConserves(cfg, s);
    case HandlerDone => HandEmptied(s, Step(cfg, s, ev), Ends([s.held.value], Finished));
    case HandlerRetry(reason, at) =>
      if AttemptsSpent(cfg, s.q.inFlight.value.attempts) {
        SpentConserves(cfg, s, reason, at);
      } else {
        RetriedConserves(cfg, s, reason, at);
      }
    case HandlerFailed(cause, at) => FailConserves(cfg, s, cause, at);
    case Restart =>
      if s.held.Some? {
        HandEmptied(s, Step(cfg, s, ev), Ends([s.held.value], DroppedAtRestart));
      } else {
        assert |Ends(HeldMsgs(s.held), DroppedAtRestart)| == 0;
        assert Step(cfg, s, ev).ended == s.ended;
      }
    case LeadershipLost => LossConserves(cfg, s);
  }
}
