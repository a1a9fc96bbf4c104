/**
 The sender's mutable queue. Each method is one lock section of
 `LocalQueueSender`; its contract is the step of `LocalQueueSpec` it takes, and
 every one of them keeps the keys distinct and both capacities.
 */
module LocalQueue {
  import opened Wrappers
  import opened Sequences
  import opened LocalQueueSpec
  import opened LocalQueueStructure

  class Sender {
    const cfg: Config
    var queued: seq<Entry>
    var inFlight: Option<InHand>
    var dead: seq<Aside>

    function Snapshot(): State
      reads this
    {
      State(queued, inFlight, dead)
    }

    ghost predicate Valid()
      reads this
    {
      KeysDistinct(Snapshot()) && Bounded(cfg, Snapshot())
    }

    constructor (cfg: Config)
      ensures Valid() && this.cfg == cfg && Snapshot() == EMPTY
    {
      this.cfg := cfg;
      queued, inFlight, dead := [], None, [];
    }

    method Send(msg: Message) returns (result: SendResult)
      requires Valid()
      modifies this
      ensures Valid()
      ensures (Snapshot(), result) == LocalQueueSpec.Send(cfg, old(Snapshot()), msg)
    {
      SendKeeps(cfg, Snapshot(), msg);
      ProducersKeepBounds(cfg, Snapshot(), msg, msg.key);
      var aside := DeadIndex(dead, msg.key);
      if aside.Some? {
        return DeadLettered;
      }
      var index := QueuedIndex(queued, msg.key);
      if index.Some? {
        return Accepted;
      }
      if !(|queued| + (if inFlight.Some? then 1 else 0) < cfg.capacity) {
        return Full;
      }
      queued := queued + [NewEntry(msg.key, msg)];
      return Accepted;
    }

    method Status(key: Key) returns (status: KeyStatus)
      requires Valid()
      ensures status == LocalQueueSpec.Status(Snapshot(), key)
    {
      if inFlight.Some? && inFlight.value.key == key {
        return InHandNow;
      }
      var index := QueuedIndex(queued, key);
      if index.Some? {
        return Queued(index.value + 1);
      }
      var aside := DeadIndex(dead, key);
      return if aside.Some? then SetAsideAs(dead[aside.value].letter) else Absent;
    }

    method Requeue(key: Key) returns (roomy: bool)
      requires Valid()
      modifies this
      ensures Valid()
      ensures (Snapshot(), roomy) == LocalQueueSpec.Requeue(cfg, old(Snapshot()), key)
    {
      RequeueKeeps(cfg, Snapshot(), key);
      ProducersKeepBounds(cfg, Snapshot(), Message(key, ""), key);
      var index := DeadIndex(dead, key);
      if index.None? {
        return true;
      }
      if !(|queued| + (if inFlight.Some? then 1 else 0) < cfg.capacity) {
        return false;
      }
      var aside := dead[index.value];
      dead := RemoveAt(dead, index.value);
      queued := queued + [NewEntry(aside.key, aside.msg)];
      return true;
    }

    method Forget(key: Key) returns (found: bool)
      requires Valid()
      modifies this
      ensures Valid()
      ensures (Snapshot(), found) == LocalQueueSpec.Forget(old(Snapshot()), key)
    {
      ForgetKeeps(Snapshot(), key);
      ProducersKeepBounds(cfg, Snapshot(), Message(key, ""), key);
      var index := DeadIndex(dead, key);
      if index.None? {
        return false;
      }
      dead := RemoveAt(dead, index.value);
      return true;
    }

    /** One pass of the loop in `next`; an empty queue makes the caller wait for a wake-up. */
    method TryNext() returns (taken: Option<(Message, nat)>)
      requires Valid()
      modifies this
      ensures Valid()
      ensures (Snapshot(), taken) == LocalQueueSpec.Next(old(Snapshot()))
    {
      NextKeeps(Snapshot());
      if queued == [] {
        return None;
      }
      var entry := queued[0];
      queued := queued[1..];
      var attempts := SaturatingSuccessor(entry.attempts);
      inFlight := Some(InHand(entry.key, attempts, entry.lastReason));
      return Some((entry.msg, attempts));
    }

    /** The eviction loop of `set_aside`: pop from the front while over the limit. */
    method EvictOldest()
      modifies this`dead
      ensures dead == KeepNewest(old(dead), cfg.deadCapacity)
    {
      var popped := 0;
      while |dead| > cfg.deadCapacity
        invariant 0 <= popped <= |old(dead)|
        invariant dead == old(dead)[popped..]
        invariant popped > 0 ==> |dead| >= cfg.deadCapacity
        decreases |dead|
      {
        dead := dead[1..];
        popped := popped + 1;
      }
    }

    method SetAside(hand: InHand, msg: Message, cause: Cause, at: nat) returns (letter: Letter)
      requires Valid() && inFlight.None? && hand.key !in DeadKeys(dead)
      modifies this
      ensures Valid()
      ensures (Snapshot(), letter) == LocalQueueSpec.SetAside(cfg, old(Snapshot()), hand, msg, cause, at)
    {
      SetAsideKeeps(cfg, Snapshot(), hand, msg, cause, at);
      AsideKeepsBounds(cfg, Snapshot(), hand, msg, cause, at);
      var index := QueuedIndex(queued, hand.key);
      if index.Some? {
        queued := RemoveAt(queued, index.value);
      }
      letter := Letter(cause, hand.attempts, hand.lastReason, at);
      dead := dead + [Aside(hand.key, msg, letter)];
      assert queued == WithoutKey(old(queued), hand.key);
      EvictOldest();
    }

    method Retry(msg: Message, reason: string, at: nat) returns (letter: Option<Letter>)
      requires Valid()
      modifies this
      ensures Valid()
      ensures (Snapshot(), letter) == LocalQueueSpec.Retry(cfg, old(Snapshot()), msg, reason, at)
    {
      RetryKeeps(cfg, Snapshot(), msg, reason, at);
      OutcomesKeepBounds(cfg, Snapshot(), msg, reason, Exhausted, at);
      if inFlight.None? {
        return None;
      }
      var hand := inFlight.value.(lastReason := Some(reason));
      inFlight := None;
      if cfg.maxAttempts.Some? && hand.attempts >= cfg.maxAttempts.value {
        var spent := SetAside(hand, msg, Exhausted, at);
        return Some(spent);
      }
      var index := QueuedIndex(queued, hand.key);
      if index.None? {
        queued := queued + [Entry(hand.key, msg, hand.attempts, hand.lastReason)];
      } else {
        var resend := queued[index.value].(attempts := hand.attempts, lastReason := hand.lastReason);
        queued := queued[index.value := resend];
      }
      return None;
    }

    method Fail(msg: Message, cause: Cause, at: nat) returns (letter: Option<Letter>)
      requires Valid()
      modifies this
      ensures Valid()
      ensures (Snapshot(), letter) == LocalQueueSpec.Fail(cfg, old(Snapshot()), msg, cause, at)
    {
      FailKeeps(cfg, Snapshot(), msg, cause, at);
      OutcomesKeepBounds(cfg, Snapshot(), msg, "", cause, at);
      if inFlight.None? {
        return None;
      }
      var hand := inFlight.value;
      inFlight := None;
      if cause.Failed? {
        hand := hand.(lastReason := Some(cause.reason));
      }
      var aside := SetAside(hand, msg, cause, at);
      return Some(aside);
    }

    method ReleaseInFlight()
      requires Valid()
      modifies this
      ensures Valid()
      ensures Snapshot() == LocalQueueSpec.ReleaseInFlight(old(Snapshot()))
    {
      inFlight := None;
    }

    method Clear() returns (dropped: nat, letters: nat)
      requires Valid()
      modifies this
      ensures Valid()
      ensures (Snapshot(), dropped, letters) == LocalQueueSpec.Clear(old(Snapshot()))
    {
      dropped := |queued| + if inFlight.Some? then 1 else 0;
      letters := |dead|;
      queued, inFlight, dead := [], None, [];
    }
  }
}
