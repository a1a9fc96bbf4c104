/**
 Leadership terms told by the moves alone: how much time the clock moves between
 an acquisition and a take, between a retry and a take, and which sends and takes
 fall into the current term. The log of the server is not mentioned here except to
 show that it tells the same.
 */
module LocalQueueTimeline {
  import opened Wrappers
  import opened LocalQueueSpec
  import opened LocalQueueSystem
  import opened LocalQueueTerms

  function Elapsed(ms: seq<Move>): nat {
    if ms == [] then 0
    else Elapsed(ms[..|ms| - 1]) + if ms[|ms| - 1].Tick? then ms[|ms| - 1].elapsed else 0
  }

  /** What the watch channel says after the moves: nobody leads at first. */
  predicate ChannelLeads(ms: seq<Move>) {
    ms != [] && if ms[|ms| - 1].Flip? then ms[|ms| - 1].leading else ChannelLeads(ms[..|ms| - 1])
  }

  predicate ChannelClosed(ms: seq<Move>) {
    exists k :: 0 <= k < |ms| && ms[k].Close?
  }

  /** The move ends a serving: a loss is observed, or the supervisor runs the worker again. */
  predicate Ends(m: Move) {
    m.ObserveLoss? || m.ServeAgain?
  }

  predicate NoEndFrom(ms: seq<Move>, from: nat) {
    forall k :: from <= k < |ms| ==> !Ends(ms[k])
  }

  predicate NoLossFrom(ms: seq<Move>, from: nat) {
    forall k :: from <= k < |ms| ==> !ms[k].ObserveLoss?
  }

  lemma {:induction false} ElapsedSplits(ms: seq<Move>, i: nat)
    requires i <= |ms|
    ensures Elapsed(ms) == Elapsed(ms[..i]) + Elapsed(ms[i..])
    decreases |ms|
  {
    if i == |ms| {
      assert ms[..i] == ms;
    } else {
      var init := ms[..|ms| - 1];
      ElapsedSplits(init, i);
      assert init[..i] == ms[..i] && ms[i..][..|ms| - i - 1] == init[i..];
    }
  }

  // ------------------------------------------------------------------------
  // Runs by their last move
  // ------------------------------------------------------------------------

  lemma {:induction false} OneMoreMove(cfg: Config, t: Timing, v: Server, ms: seq<Move>, m: Move)
    ensures ValidMoves(cfg, t, v, ms + [m]) <==> ValidMoves(cfg, t, v, ms) && CanMove(t, Moves(cfg, t, v, ms), m)
    ensures ValidMoves(cfg, t, v, ms + [m]) ==>
              Moves(cfg, t, v, ms + [m]) == Apply(cfg, t, Moves(cfg, t, v, ms), m)
    decreases |ms|
  {
    if ms == [] {
      assert (ms + [m])[1..] == [];
    } else {
      assert (ms + [m])[1..] == ms[1..] + [m];
      if CanMove(t, v, ms[0]) {
        OneMoreMove(cfg, t, Apply(cfg, t, v, ms[0]), ms[1..], m);
      }
    }
  }

  /** The server after the moves, which a booted server can make. */
  ghost predicate Played(cfg: Config, t: Timing, ms: seq<Move>) {
    ValidMoves(cfg, t, BOOTED, ms)
  }

  function After(cfg: Config, t: Timing, ms: seq<Move>): Server
    requires Played(cfg, t, ms)
  {
    Moves(cfg, t, BOOTED, ms)
  }

  lemma LastMove(cfg: Config, t: Timing, ms: seq<Move>)
    requires Played(cfg, t, ms) && ms != []
    ensures var init, m := ms[..|ms| - 1], ms[|ms| - 1];
      Played(cfg, t, init) && CanMove(t, After(cfg, t, init), m)
      && After(cfg, t, ms) == Apply(cfg, t, After(cfg, t, init), m)
  {
    var init, m := ms[..|ms| - 1], ms[|ms| - 1];
    assert ms == init + [m];
    OneMoreMove(cfg, t, BOOTED, init, m);
  }

  lemma {:induction false} PrefixIsPlayed(cfg: Config, t: Timing, ms: seq<Move>, n: nat)
    requires Played(cfg, t, ms) && n <= |ms|
    ensures Played(cfg, t, ms[..n])
    decreases |ms|
  {
    if n == |ms| {
      assert ms[..n] == ms;
    } else {
      LastMove(cfg, t, ms);
      PrefixIsPlayed(cfg, t, ms[..|ms| - 1], n);
      assert ms[..|ms| - 1][..n] == ms[..n];
    }
  }

  // ------------------------------------------------------------------------
  // Clock, channel and serving
  // ------------------------------------------------------------------------

  lemma {:induction false} ClockIsElapsed(cfg: Config, t: Timing, ms: seq<Move>)
    requires Played(cfg, t, ms)
    ensures After(cfg, t, ms).now == Elapsed(ms)
    ensures After(cfg, t, ms).leading == ChannelLeads(ms) && (After(cfg, t, ms).closed <==> ChannelClosed(ms))
    decreases |ms|
  {
    if ms != [] {
      var init, m := ms[..|ms| - 1], ms[|ms| - 1];
      LastMove(cfg, t, ms);
      ClockIsElapsed(cfg, t, init);
      ClockOf(cfg, t, After(cfg, t, init), m);
      ClosedOneMore(init, m);
      assert ms == init + [m];
    }
  }

  lemma ClockOf(cfg: Config, t: Timing, v: Server, m: Move)
    requires CanMove(t, v, m)
    ensures var v' := Apply(cfg, t, v, m);
      && v'.now == v.now + (if m.Tick? then m.elapsed else 0)
      && v'.leading == (if m.Flip? then m.leading else v.leading)
      && v'.closed == (v.closed || m.Close?)
  {
  }

  lemma ClosedOneMore(init: seq<Move>, m: Move)
    ensures ChannelClosed(init + [m]) <==> ChannelClosed(init) || m.Close?
  {
    var ms := init + [m];
    if ChannelClosed(init) {
      var k :| 0 <= k < |init| && init[k].Close?;
      assert ms[k].Close?;
    }
    if m.Close? {
      assert ms[|init|].Close?;
    }
    if ChannelClosed(ms) && !m.Close? {
      var k :| 0 <= k < |ms| && ms[k].Close?;
      assert init[k].Close?;
    }
  }

  /** Move `i` acquired leadership at time `since`, while the channel said so, and nothing has ended the serving. */
  predicate AcquiredAt(t: Timing, ms: seq<Move>, i: nat, since: nat) {
    && i < |ms| && ms[i].Acquire? && NoEndFrom(ms, i + 1)
    && Elapsed(ms[..i]) == since && (ChannelLeads(ms[..i]) || !t.haEnabled)
  }

  lemma ServingGoesOn(t: Timing, init: seq<Move>, m: Move, i: nat, since: nat)
    requires AcquiredAt(t, init, i, since) && !Ends(m)
    ensures AcquiredAt(t, init + [m], i, since)
  {
    assert (init + [m])[..i] == init[..i];
  }

  /** Outside `Following` the phase dates from an acquisition, and serving began a settle after it. */
  ghost predicate PhaseDated(t: Timing, v: Server, ms: seq<Move>) {
    && (!v.phase.Following? ==> exists i: nat :: AcquiredAt(t, ms, i, v.phase.since))
    && (v.phase.Serving? ==> v.phase.since + t.settle <= v.now)
  }

  lemma PhaseOf(cfg: Config, t: Timing, v: Server, m: Move)
    requires CanMove(t, v, m)
    ensures var v' := Apply(cfg, t, v, m);
      && (Ends(m) ==> v'.phase.Following?)
      && (m.Acquire? ==> v'.phase == Settling(v.now) && (v.leading || !t.haEnabled))
      && (!Ends(m) && !m.Acquire? && !v'.phase.Following? ==>
            && !v.phase.Following? && v'.phase.since == v.phase.since
            && (v'.phase.Serving? ==> v.phase.Serving? || v.phase.since + t.settle <= v.now))
  {
  }

  lemma {:induction false} PhaseIsDated(cfg: Config, t: Timing, ms: seq<Move>)
    requires Played(cfg, t, ms)
    ensures PhaseDated(t, After(cfg, t, ms), ms)
    decreases |ms|
  {
    if ms != [] {
      var init, m := ms[..|ms| - 1], ms[|ms| - 1];
      LastMove(cfg, t, ms);
      var v := After(cfg, t, init);
      PhaseIsDated(cfg, t, init);
      ClockIsElapsed(cfg, t, init);
      PhaseOf(cfg, t, v, m);
      ClockOf(cfg, t, v, m);
      assert ms == init + [m];
      PhaseOneMore(t, v, After(cfg, t, ms), init, m);
    }
  }

  lemma PhaseOneMore(t: Timing, v: Server, v': Server, init: seq<Move>, m: Move)
    requires PhaseDated(t, v, init) && v.now == Elapsed(init) && v.leading == ChannelLeads(init) && v'.now >= v.now
    requires Ends(m) ==> v'.phase.Following?
    requires m.Acquire? ==> v'.phase == Settling(v.now) && (v.leading || !t.haEnabled)
    requires !Ends(m) && !m.Acquire? && !v'.phase.Following? ==>
               && !v.phase.Following? && v'.phase.since == v.phase.since
               && (v'.phase.Serving? ==> v.phase.Serving? || v.phase.since + t.settle <= v.now)
    ensures PhaseDated(t, v', init + [m])
  {
    if m.Acquire? {
      assert (init + [m])[..|init|] == init;
      assert AcquiredAt(t, init + [m], |init|, v.now);
    } else if !v'.phase.Following? {
      var i: nat :| AcquiredAt(t, init, i, v.phase.since);
      ServingGoesOn(t, init, m, i, v.phase.since);
    }
  }

  // ------------------------------------------------------------------------
  // Pauses
  // ------------------------------------------------------------------------

  /** Move `h` reports a retry that returns no letter. */
  ghost predicate Pauses(cfg: Config, t: Timing, ms: seq<Move>, h: nat) {
    && h < |ms| && ms[h].Work? && ms[h].ev.HandlerRetry? && Played(cfg, t, ms[..h])
    && var s := After(cfg, t, ms[..h]).sys;
       s.held.Some? && Retry(cfg, s.q, s.held.value, ms[h].ev.reason, ms[h].ev.at).1.None?
  }

  ghost predicate PausesHold(cfg: Config, t: Timing, v: Server, ms: seq<Move>) {
    forall h: nat :: Pauses(cfg, t, ms, h) && NoEndFrom(ms, h + 1) ==> Elapsed(ms[..h]) + t.retryDelay <= v.pausedUntil
  }

  lemma PauseOf(cfg: Config, t: Timing, v: Server, m: Move)
    requires CanMove(t, v, m)
    ensures var v' := Apply(cfg, t, v, m);
      && (!Ends(m) ==> v'.pausedUntil == v.pausedUntil || v'.pausedUntil == v.now + t.retryDelay)
      && (m.Work? && m.ev.HandlerRetry? && Retry(cfg, v.sys.q, v.sys.held.value, m.ev.reason, m.ev.at).1.None? ==>
            v'.pausedUntil == v.now + t.retryDelay)
  {
  }

  lemma {:induction false} PausesAreHeld(cfg: Config, t: Timing, ms: seq<Move>)
    requires Played(cfg, t, ms)
    ensures PausesHold(cfg, t, After(cfg, t, ms), ms)
    decreases |ms|
  {
    if ms != [] {
      var init, m := ms[..|ms| - 1], ms[|ms| - 1];
      LastMove(cfg, t, ms);
      PausesAreHeld(cfg, t, init);
      ClockIsElapsed(cfg, t, init);
      PauseOf(cfg, t, After(cfg, t, init), m);
      forall h: nat | Pauses(cfg, t, ms, h) && NoEndFrom(ms, h + 1)
        ensures Elapsed(ms[..h]) + t.retryDelay <= After(cfg, t, ms).pausedUntil
      {
        ElapsedSplits(init, h);
        if h < |init| {
          assert init[..h] == ms[..h] && init[h] == ms[h] && !Ends(ms[|init|]);
          assert Pauses(cfg, t, init, h) && NoEndFrom(init, h + 1);
        }
      }
    }
  }

  /**
   Every take is preceded by an acquisition, made while the channel said so, with
   no observed loss and no re-run in between and a full settle of clock time since.
   */
  lemma TakesSettleFirst(cfg: Config, t: Timing, ms: seq<Move>, j: nat)
    requires ValidMoves(cfg, t, BOOTED, ms) && j < |ms| && ms[j] == Work(Take)
    ensures exists i: nat :: i < j && ms[i].Acquire? && (forall k :: i < k < j ==> !Ends(ms[k]))
                        && Elapsed(ms[i..j]) >= t.settle && (ChannelLeads(ms[..i]) || !t.haEnabled)
  {
    UpTo(cfg, t, ms, j);
    var i := SettledBefore(cfg, t, ms[..j]);
    assert ms[..j][i..] == ms[i..j] && ms[..j][..i] == ms[..i];
    forall k | i < k < j ensures !Ends(ms[k]) {
      assert ms[..j][k] == ms[k];
    }
  }

  /** And a full pause of clock time has passed since every retry of the same serving. */
  lemma TakesWaitOutPauses(cfg: Config, t: Timing, ms: seq<Move>, j: nat, h: nat)
    requires ValidMoves(cfg, t, BOOTED, ms) && j < |ms| && ms[j] == Work(Take)
    requires h < j && Pauses(cfg, t, ms, h) && forall k :: h < k < j ==> !Ends(ms[k])
    ensures Elapsed(ms[h..j]) >= t.retryDelay
  {
    UpTo(cfg, t, ms, j);
    assert ms[..j][..h] == ms[..h] && ms[..j][h] == ms[h] && ms[..j][h..] == ms[h..j];
    PausedBefore(cfg, t, ms[..j], h);
  }

  lemma UpTo(cfg: Config, t: Timing, ms: seq<Move>, j: nat)
    requires Played(cfg, t, ms) && j < |ms|
    ensures Played(cfg, t, ms[..j]) && CanMove(t, After(cfg, t, ms[..j]), ms[j])
  {
    PrefixIsPlayed(cfg, t, ms, j + 1);
    LastMove(cfg, t, ms[..j + 1]);
    assert ms[..j + 1][..j] == ms[..j];
  }

  lemma SettledBefore(cfg: Config, t: Timing, before: seq<Move>) returns (i: nat)
    requires Played(cfg, t, before) && CanMove(t, After(cfg, t, before), Work(Take))
    ensures i < |before| && before[i].Acquire? && NoEndFrom(before, i + 1)
    ensures Elapsed(before[i..]) >= t.settle && (ChannelLeads(before[..i]) || !t.haEnabled)
  {
    var v := After(cfg, t, before);
    ClockIsElapsed(cfg, t, before);
    PhaseIsDated(cfg, t, before);
    i :| AcquiredAt(t, before, i, v.phase.since);
    ElapsedSplits(before, i);
  }

  lemma PausedBefore(cfg: Config, t: Timing, before: seq<Move>, h: nat)
    requires Played(cfg, t, before) && CanMove(t, After(cfg, t, before), Work(Take))
    requires Pauses(cfg, t, before, h) && NoEndFrom(before, h + 1)
    ensures Elapsed(before[h..]) >= t.retryDelay
  {
    ClockIsElapsed(cfg, t, before);
    PausesAreHeld(cfg, t, before);
    ElapsedSplits(before, h);
  }

  /** A loss is observed only when the channel says so or has closed. */
  lemma LossesAreOnTheChannel(cfg: Config, t: Timing, ms: seq<Move>, j: nat)
    requires ValidMoves(cfg, t, BOOTED, ms) && j < |ms| && ms[j].ObserveLoss?
    ensures t.haEnabled && (!ChannelLeads(ms[..j]) || ChannelClosed(ms[..j]))
  {
    UpTo(cfg, t, ms, j);
    ClockIsElapsed(cfg, t, ms[..j]);
  }

  // ------------------------------------------------------------------------
  // Sends and takes of the term
  // ------------------------------------------------------------------------

  /** The message was sent, and no loss has been observed since. */
  ghost predicate SentThisTerm(ms: seq<Move>, msg: Message) {
    exists p: nat :: p < |ms| && ms[p] == Produce(SendMessage(msg)) && NoLossFrom(ms, p + 1)
  }

  /** How often a message of the key was taken since the last observed loss. */
  function TakesSinceLoss(cfg: Config, t: Timing, ms: seq<Move>, key: Key): nat
    requires Played(cfg, t, ms)
    decreases |ms|
  {
    if ms == [] then 0
    else
      var init, m := ms[..|ms| - 1], ms[|ms| - 1];
      LastMove(cfg, t, ms);
      if m.ObserveLoss? then 0
      else TakesSinceLoss(cfg, t, init, key)
           + if m == Work(Take) && After(cfg, t, init).sys.q.queued[0].msg.key == key then 1 else 0
  }

  lemma LogOf(cfg: Config, t: Timing, v: Server, m: Move)
    requires CanMove(t, v, m)
    ensures var v' := Apply(cfg, t, v, m);
      if m.ObserveLoss? then v'.log == v.log + [Lost]
      else if m == Work(Take) then v'.log == v.log + [Took(v.sys.q.queued[0].msg, v.now)]
      else if m.Produce? then v'.log == v.log || (m.ev.SendMessage? && v'.log == v.log + [Pushed(m.ev.msg)])
      else v'.log == v.log || exists mark :: v'.log == v.log + [mark] && (mark.Acquired? || mark.Rerun? || mark.Retried?)
  {
  }

  lemma TermOf(cfg: Config, t: Timing, v: Server, m: Move, key: Key)
    requires CanMove(t, v, m)
    ensures var log, log' := v.log, Apply(cfg, t, v, m).log;
      && (m.ObserveLoss? ==> PushedThisTerm(log') == {} && TakesThisTerm(log', key) == 0)
      && (!m.ObserveLoss? ==>
            && (forall msg :: msg in PushedThisTerm(log') ==> msg in PushedThisTerm(log) || m == Produce(SendMessage(msg)))
            && TakesThisTerm(log', key)
               == TakesThisTerm(log, key) + if m == Work(Take) && v.sys.q.queued[0].msg.key == key then 1 else 0)
  {
    LogOf(cfg, t, v, m);
    var log, log' := v.log, Apply(cfg, t, v, m).log;
    if log' != log {
      assert log'[..|log'| - 1] == log;
      if !m.ObserveLoss? && m != Work(Take) && !m.Produce? {
        var mark :| log' == log + [mark] && (mark.Acquired? || mark.Rerun? || mark.Retried?);
        NeutralMark(log, mark);
      }
    }
  }

  lemma {:induction false} LogTellsTheTakes(cfg: Config, t: Timing, ms: seq<Move>, key: Key)
    requires Played(cfg, t, ms)
    ensures TakesThisTerm(After(cfg, t, ms).log, key) == TakesSinceLoss(cfg, t, ms, key)
    decreases |ms|
  {
    if ms != [] {
      LastMove(cfg, t, ms);
      LogTellsTheTakes(cfg, t, ms[..|ms| - 1], key);
      TermOf(cfg, t, After(cfg, t, ms[..|ms| - 1]), ms[|ms| - 1], key);
    }
  }

  lemma {:induction false} LogTellsTheSends(cfg: Config, t: Timing, ms: seq<Move>, msg: Message)
    requires Played(cfg, t, ms) && msg in PushedThisTerm(After(cfg, t, ms).log)
    ensures SentThisTerm(ms, msg)
    decreases |ms|
  {
    if ms != [] {
      var init, m := ms[..|ms| - 1], ms[|ms| - 1];
      LastMove(cfg, t, ms);
      TermOf(cfg, t, After(cfg, t, init), m, msg.key);
      if m == Produce(SendMessage(msg)) {
        assert NoLossFrom(ms, |init| + 1);
      } else {
        LogTellsTheSends(cfg, t, init, msg);
        var p: nat :| p < |init| && init[p] == Produce(SendMessage(msg)) && NoLossFrom(init, p + 1);
        assert ms[p] == init[p] && NoLossFrom(ms, p + 1);
      }
    }
  }

  /**
   After any run whatever is held dates from the current term: every message in
   line, in hand or set aside was sent since the last observed loss, and every
   attempt count is at most the takes of its key since then.
   */
  lemma HoldingsAreOfTheTerm(cfg: Config, t: Timing, ms: seq<Move>)
    requires ValidMoves(cfg, t, BOOTED, ms)
    ensures var q := Moves(cfg, t, BOOTED, ms).sys.q;
      && (forall e :: e in q.queued ==> SentThisTerm(ms, e.msg) && e.attempts <= TakesSinceLoss(cfg, t, ms, e.key))
      && (forall d :: d in q.dead ==> SentThisTerm(ms, d.msg) && d.letter.attempts <= TakesSinceLoss(cfg, t, ms, d.key))
      && (q.inFlight.Some? ==> q.inFlight.value.attempts <= TakesSinceLoss(cfg, t, ms, q.inFlight.value.key))
    ensures var held := Moves(cfg, t, BOOTED, ms).sys.held; held.Some? ==> SentThisTerm(ms, held.value)
  {
    TermsAreIsolated(cfg, t, ms);
    var v := After(cfg, t, ms);
    forall e | e in v.sys.q.queued ensures SentThisTerm(ms, e.msg) && e.attempts <= TakesSinceLoss(cfg, t, ms, e.key) {
      LogTellsTheSends(cfg, t, ms, e.msg);
      LogTellsTheTakes(cfg, t, ms, e.key);
    }
    forall d | d in v.sys.q.dead
      ensures SentThisTerm(ms, d.msg) && d.letter.attempts <= TakesSinceLoss(cfg, t, ms, d.key)
    {
      LogTellsTheSends(cfg, t, ms, d.msg);
      LogTellsTheTakes(cfg, t, ms, d.key);
    }
    if v.sys.q.inFlight.Some? {
      LogTellsTheTakes(cfg, t, ms, v.sys.q.inFlight.value.key);
    }
    if v.sys.held.Some? {
      LogTellsTheSends(cfg, t, ms, v.sys.held.value);
    }
  }
}
