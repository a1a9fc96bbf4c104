/**
 The queue behind `LocalQueueSender`, one pure function per lock section.

 Every method of the sender takes the mutex, changes the three collections and
 drops it, so a method is one atomic step on a `State`. The class in
 `LocalQueue` performs those steps on mutable fields and is proved against the
 functions here; `LocalQueueSystem` puts them into runs.
 */
module LocalQueueSpec {
  import opened Wrappers
  import opened Sequences

  const U32_MAX: nat := 0xFFFF_FFFF

  /** `NonZeroU32` */
  type Positive32 = n: nat | 1 <= n <= U32_MAX witness 1

  type Key = string

  /** A message together with what `LocalQueueWorker::key` answers for it. */
  datatype Message = Message(key: Key, payload: string)

  /** The associated constants of a worker that the queue reads. */
  datatype Config = Config(capacity: nat, maxAttempts: Option<Positive32>, deadCapacity: nat)

  datatype Cause = Exhausted | TimedOut(after: nat) | Failed(reason: string)

  datatype Letter = Letter(cause: Cause, attempts: nat, lastReason: Option<string>, at: nat)

  datatype Entry = Entry(key: Key, msg: Message, attempts: nat, lastReason: Option<string>)

  datatype InHand = InHand(key: Key, attempts: nat, lastReason: Option<string>)

  datatype Aside = Aside(key: Key, msg: Message, letter: Letter)

  datatype State = State(queued: seq<Entry>, inFlight: Option<InHand>, dead: seq<Aside>)

  datatype SendResult = Accepted | Full | DeadLettered

  datatype KeyStatus = InHandNow | Queued(position: nat) | SetAsideAs(letter: Letter) | Absent

  const EMPTY := State([], None, [])

  function NewEntry(key: Key, msg: Message): Entry {
    Entry(key, msg, 0, None)
  }

  function SaturatingSuccessor(n: nat): nat {
    if n < U32_MAX then n + 1 else U32_MAX
  }

  /** The first queued entry of `key`. */
  function QueuedIndex(q: seq<Entry>, key: Key): (r: Option<nat>)
    ensures r.Some? ==> r.value < |q| && q[r.value].key == key && forall j :: 0 <= j < r.value ==> q[j].key != key
    ensures r.None? ==> forall j :: 0 <= j < |q| ==> q[j].key != key
  {
    Position(q, (e: Entry) => e.key == key)
  }

  /** The first set-aside message of `key`. */
  function DeadIndex(d: seq<Aside>, key: Key): (r: Option<nat>)
    ensures r.Some? ==> r.value < |d| && d[r.value].key == key && forall j :: 0 <= j < r.value ==> d[j].key != key
    ensures r.None? ==> forall j :: 0 <= j < |d| ==> d[j].key != key
  {
    Position(d, (a: Aside) => a.key == key)
  }

  function Load(s: State): nat {
    |s.queued| + if s.inFlight.Some? then 1 else 0
  }

  function Send(cfg: Config, s: State, msg: Message): (State, SendResult) {
    if DeadIndex(s.dead, msg.key).Some? then (s, DeadLettered)
    else if QueuedIndex(s.queued, msg.key).Some? then (s, Accepted)
    else if Load(s) >= cfg.capacity then (s, Full)
    else (s.(queued := s.queued + [NewEntry(msg.key, msg)]), Accepted)
  }

  function Status(s: State, key: Key): KeyStatus {
    if s.inFlight.Some? && s.inFlight.value.key == key then InHandNow
    else
      match QueuedIndex(s.queued, key)
      case Some(i) => Queued(i + 1)
      case None =>
        match DeadIndex(s.dead, key)
        case Some(i) => SetAsideAs(s.dead[i].letter)
        case None => Absent
  }

  /** The line without the first entry of `key`. */
  function WithoutKey(q: seq<Entry>, key: Key): seq<Entry> {
    match QueuedIndex(q, key)
    case Some(i) => RemoveAt(q, i)
    case None => q
  }

  /** The flag is false when the queue was full and the key stayed set aside. */
  function Requeue(cfg: Config, s: State, key: Key): (State, bool) {
    match DeadIndex(s.dead, key)
    case None => (s, true)
    case Some(i) =>
      if Load(s) >= cfg.capacity then (s, false)
      else
        var aside := s.dead[i];
        (s.(queued := s.queued + [NewEntry(aside.key, aside.msg)], dead := RemoveAt(s.dead, i)), true)
  }

  function Forget(s: State, key: Key): (State, bool) {
    match DeadIndex(s.dead, key)
    case None => (s, false)
    case Some(i) => (s.(dead := RemoveAt(s.dead, i)), true)
  }

  /** One pass of the loop in `next`: the message taken and its attempt number. */
  function Next(s: State): (State, Option<(Message, nat)>) {
    if s.queued == [] then (s, None)
    else
      var entry := s.queued[0];
      var attempts := SaturatingSuccessor(entry.attempts);
      (State(s.queued[1..], Some(InHand(entry.key, attempts, entry.lastReason)), s.dead), Some((entry.msg, attempts)))
  }

  /** What is left after popping from the front until at most `limit` remain. */
  function KeepNewest<T>(d: seq<T>, limit: nat): (r: seq<T>)
    ensures |r| <= limit && |r| <= |d| && r == d[|d| - |r|..]
    ensures |r| < |d| ==> |r| == limit
  {
    if |d| <= limit then d else d[|d| - limit..]
  }

  function SetAside(cfg: Config, s: State, hand: InHand, msg: Message, cause: Cause, at: nat): (State, Letter) {
    var letter := Letter(cause, hand.attempts, hand.lastReason, at);
    var dead := KeepNewest(s.dead + [Aside(hand.key, msg, letter)], cfg.deadCapacity);
    (State(WithoutKey(s.queued, hand.key), s.inFlight, dead), letter)
  }

  predicate AttemptsSpent(cfg: Config, attempts: nat) {
    cfg.maxAttempts.Some? && attempts >= cfg.maxAttempts.value
  }

  function Retry(cfg: Config, s: State, msg: Message, reason: string, at: nat): (State, Option<Letter>) {
    if s.inFlight.None? then (s, None)
    else
      var hand := s.inFlight.value.(lastReason := Some(reason));
      var freed := s.(inFlight := None);
      if AttemptsSpent(cfg, hand.attempts) then
        var (after, letter) := SetAside(cfg, freed, hand, msg, Exhausted, at);
        (after, Some(letter))
      else
        match QueuedIndex(s.queued, hand.key)
        case None =>
          (freed.(queued := s.queued + [Entry(hand.key, msg, hand.attempts, hand.lastReason)]), None)
        case Some(i) =>
          var resend := s.queued[i].(attempts := hand.attempts, lastReason := hand.lastReason);
          (freed.(queued := s.queued[i := resend]), None)
  }

  function Fail(cfg: Config, s: State, msg: Message, cause: Cause, at: nat): (State, Option<Letter>) {
    if s.inFlight.None? then (s, None)
    else
      var hand := if cause.Failed? then s.inFlight.value.(lastReason := Some(cause.reason)) else s.inFlight.value;
      var (after, letter) := SetAside(cfg, s.(inFlight := None), hand, msg, cause, at);
      (after, Some(letter))
  }

  function ReleaseInFlight(s: State): State {
    s.(inFlight := None)
  }

  /** The counts are the messages and the dead letters discarded. */
  function Clear(s: State): (State, nat, nat) {
    (EMPTY, Load(s), |s.dead|)
  }
}
