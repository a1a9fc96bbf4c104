/**
 Readiness gates: a lock-free count of the gates that are not ready, beside the
 registry it summarises.

 Each atomic operation is one move. `gate` adds to the counter and then pushes to
 the list; `set_ready` swaps the flag and then, if the flag changed, adds or
 subtracts. Any number of threads may stand between their two moves.
 */
module Readiness {
  import opened Sequences

  /** The counter is one machine word. */
  const WORD: nat := 0x1_0000_0000_0000_0000

  datatype Gate = Gate(name: string, ready: bool)

  /** A `set_ready` call that has swapped its flag and not yet moved the counter. */
  datatype Pending = Pending(gate: nat, ready: bool)

  /** `registering` counts `gate` calls that have added to the counter and not yet pushed. */
  datatype State = State(gates: seq<Gate>, counter: nat, registering: seq<string>, pending: seq<Pending>)

  const EMPTY := State([], 0, [], [])

  datatype Move =
    | Count(name: string)
    | Push(call: nat)
    | Swap(gate: nat, ready: bool)
    | Settle(call: nat)

  predicate CanMove(s: State, m: Move) {
    match m
    case Count(_) => true
    case Push(c) => c < |s.registering|
    case Swap(g, _) => g < |s.gates|
    case Settle(c) => c < |s.pending|
  }

  function Apply(s: State, m: Move): State
    requires CanMove(s, m)
  {
    match m
    case Count(name) => s.(counter := (s.counter + 1) % WORD, registering := s.registering + [name])
    case Push(c) => s.(gates := s.gates + [Gate(s.registering[c], false)], registering := RemoveAt(s.registering, c))
    case Swap(g, ready) =>
      if s.gates[g].ready == ready then s
      else s.(gates := s.gates[g := s.gates[g].(ready := ready)], pending := s.pending + [Pending(g, ready)])
    case Settle(c) =>
      s.(counter := (s.counter + if s.pending[c].ready then -1 else 1) % WORD, pending := RemoveAt(s.pending, c))
  }

  predicate ValidMoves(s: State, ms: seq<Move>)
    decreases |ms|
  {
    ms == [] || (CanMove(s, ms[0]) && ValidMoves(Apply(s, ms[0]), ms[1..]))
  }

  function Moves(s: State, ms: seq<Move>): State
    requires ValidMoves(s, ms)
    decreases |ms|
  {
    if ms == [] then s else Moves(Apply(s, ms[0]), ms[1..])
  }

  function Unready(gates: seq<Gate>): nat {
    if gates == [] then 0 else Unready(gates[..|gates| - 1]) + if gates[|gates| - 1].ready then 0 else 1
  }

  /** What the counter still has to move by: subtractions not yet made less additions not yet made. */
  function Owed(pending: seq<Pending>): int {
    if pending == [] then 0
    else Owed(pending[..|pending| - 1]) + if pending[|pending| - 1].ready then 1 else -1
  }

  function IsReady(s: State): bool {
    s.counter == 0
  }

  function BlockedOn(gates: seq<Gate>): seq<string> {
    if gates == [] then []
    else BlockedOn(gates[..|gates| - 1]) + if gates[|gates| - 1].ready then [] else [gates[|gates| - 1].name]
  }

  /** The true count, before the word wraps it. */
  function Exact(s: State): int {
    Unready(s.gates) + |s.registering| + Owed(s.pending)
  }

  predicate Agrees(s: State) {
    s.counter == Exact(s) % WORD
  }

  lemma {:induction false} UnreadyAfterSwap(gates: seq<Gate>, g: nat)
    requires g < |gates|
    ensures Unready(gates[g := gates[g].(ready := !gates[g].ready)])
         == Unready(gates) + if gates[g].ready then 1 else -1
    decreases |gates|
  {
    var flipped := gates[g := gates[g].(ready := !gates[g].ready)];
    var n := |gates| - 1;
    if g < n {
      assert flipped[..n] == gates[..n][g := gates[..n][g].(ready := !gates[..n][g].ready)];
      UnreadyAfterSwap(gates[..n], g);
    } else {
      assert flipped[..n] == gates[..n];
    }
  }

  lemma {:induction false} OwedWithout(pending: seq<Pending>, c: nat)
    requires c < |pending|
    ensures Owed(pending) == Owed(RemoveAt(pending, c)) + if pending[c].ready then 1 else -1
    decreases |pending|
  {
    var n := |pending| - 1;
    if c < n {
      OwedWithout(pending[..n], c);
      assert RemoveAt(pending, c)[..n - 1] == RemoveAt(pending[..n], c);
    } else {
      assert RemoveAt(pending, c) == pending[..n];
    }
  }

  lemma WrappedStep(x: int, d: int)
    requires -1 <= d <= 1
    ensures (x % WORD + d) % WORD == (x + d) % WORD
  {
  }

  lemma PushKeepsTheSum(s: State, c: nat)
    requires c < |s.registering|
    ensures Exact(Apply(s, Push(c))) == Exact(s)
  {
  }

  lemma SwapKeepsTheSum(s: State, g: nat, ready: bool)
    requires g < |s.gates|
    ensures Exact(Apply(s, Swap(g, ready))) == Exact(s)
  {
    if s.gates[g].ready != ready {
      UnreadyAfterSwap(s.gates, g);
      assert (s.pending + [Pending(g, ready)])[..|s.pending|] == s.pending;
    }
  }

  lemma MoveKeepsAgreement(s: State, m: Move)
    requires Agrees(s) && CanMove(s, m)
    ensures Agrees(Apply(s, m))
  {
    match m
    case Count(_) => WrappedStep(Exact(s), 1);
    case Push(c) => PushKeepsTheSum(s, c);
    case Swap(g, ready) => SwapKeepsTheSum(s, g, ready);
    case Settle(c) =>
      OwedWithout(s.pending, c);
      WrappedStep(Exact(s), if s.pending[c].ready then -1 else 1);
  }

  /** In every reachable state the counter is the unready gates, plus registrations counted early, plus what is owed. */
  lemma {:induction false} CounterAgreesWithRegistry(s: State, ms: seq<Move>)
    requires Agrees(s) && ValidMoves(s, ms)
    ensures Agrees(Moves(s, ms))
    decreases |ms|
  {
    if ms != [] {
      MoveKeepsAgreement(s, ms[0]);
      CounterAgreesWithRegistry(Apply(s, ms[0]), ms[1..]);
    }
  }

  lemma {:induction false} BlockedOnCountsUnready(gates: seq<Gate>)
    ensures |BlockedOn(gates)| == Unready(gates) <= |gates|
  {
    if gates != [] {
      BlockedOnCountsUnready(gates[..|gates| - 1]);
    }
  }

  /** The list names exactly the gates that are not ready. */
  lemma {:induction false} BlockedOnNamesTheUnready(gates: seq<Gate>, name: string)
    ensures name in BlockedOn(gates) <==> exists i :: 0 <= i < |gates| && gates[i].name == name && !gates[i].ready
  {
    if gates != [] {
      var n := |gates| - 1;
      BlockedOnNamesTheUnready(gates[..n], name);
      if name in BlockedOn(gates[..n]) {
        var i :| 0 <= i < n && gates[..n][i].name == name && !gates[..n][i].ready;
        assert gates[i] == gates[..n][i];
      }
      if i :| 0 <= i < |gates| && gates[i].name == name && !gates[i].ready {
        assert i < n ==> gates[..n][i] == gates[i];
      }
    }
  }

  /** With no call in flight the probe and the list it summarises give one answer. */
  lemma QuietProbeTellsTheTruth(ms: seq<Move>)
    requires ValidMoves(EMPTY, ms)
    ensures var s := Moves(EMPTY, ms);
      s.registering == [] && s.pending == [] && |s.gates| < WORD ==> (IsReady(s) <==> BlockedOn(s.gates) == [])
  {
    CounterAgreesWithRegistry(EMPTY, ms);
    BlockedOnCountsUnready(Moves(EMPTY, ms).gates);
  }

  // ------------------------------------------------------------------------
  // One writer per gate
  // ------------------------------------------------------------------------

  /** How many calls stand between their two moves on a gate. */
  function InFlightOn(pending: seq<Pending>, g: nat): nat {
    if pending == [] then 0
    else InFlightOn(pending[..|pending| - 1], g) + if pending[|pending| - 1].gate == g then 1 else 0
  }

  /** A call on a gate begins only beside fewer than `k` others; with `k` 1 its owner finishes each call before the next. */
  predicate MayCall(s: State, m: Move, k: nat) {
    m.Swap? ==> InFlightOn(s.pending, m.gate) < k
  }

  predicate ValidWithin(s: State, ms: seq<Move>, k: nat)
    decreases |ms|
  {
    ms == [] || (CanMove(s, ms[0]) && MayCall(s, ms[0], k) && ValidWithin(Apply(s, ms[0]), ms[1..], k))
  }

  lemma {:induction false} NoneInFlight(pending: seq<Pending>, g: nat)
    requires InFlightOn(pending, g) == 0
    ensures forall c :: 0 <= c < |pending| ==> pending[c].gate != g
  {
    if pending != [] {
      var n := |pending| - 1;
      NoneInFlight(pending[..n], g);
      forall c | 0 <= c < |pending| ensures pending[c].gate != g {
        assert c < n ==> pending[..n][c] == pending[c];
      }
    }
  }

  ghost predicate Orderly(s: State) {
    && (forall c :: 0 <= c < |s.pending| ==>
          s.pending[c].gate < |s.gates| && s.gates[s.pending[c].gate].ready == s.pending[c].ready)
    && (forall c, d :: 0 <= c < d < |s.pending| ==> s.pending[c].gate != s.pending[d].gate)
  }

  lemma MoveKeepsOrderly(s: State, m: Move)
    requires Orderly(s) && CanMove(s, m) && MayCall(s, m, 1)
    ensures Orderly(Apply(s, m))
  {
    if m.Swap? {
      NoneInFlight(s.pending, m.gate);
    }
  }

  lemma RestIsEarlier(gates: seq<Gate>, pending: seq<Pending>, c: nat)
    requires c < |pending| && gates != [] && pending[c].gate == |gates| - 1
    requires forall k :: 0 <= k < |pending| ==>
               pending[k].gate < |gates| && gates[pending[k].gate].ready == pending[k].ready
    requires forall k, d :: 0 <= k < d < |pending| ==> pending[k].gate != pending[d].gate
    ensures var n, rest := |gates| - 1, RemoveAt(pending, c);
      && (forall k :: 0 <= k < |rest| ==> rest[k].gate < n && gates[..n][rest[k].gate].ready == rest[k].ready)
      && (forall k, d :: 0 <= k < d < |rest| ==> rest[k].gate != rest[d].gate)
  {
  }

  /** What is owed lies between minus the unready gates and the ready ones. */
  lemma {:induction false} OwedIsBounded(gates: seq<Gate>, pending: seq<Pending>)
    requires forall c :: 0 <= c < |pending| ==>
               pending[c].gate < |gates| && gates[pending[c].gate].ready == pending[c].ready
    requires forall c, d :: 0 <= c < d < |pending| ==> pending[c].gate != pending[d].gate
    ensures 0 <= Unready(gates) + Owed(pending) <= |gates|
    decreases |gates|, |pending|
  {
    if pending == [] {
      BlockedOnCountsUnready(gates);
    } else {
      var n := |gates| - 1;
      if c :| 0 <= c < |pending| && pending[c].gate == n {
        OwedWithout(pending, c);
        RestIsEarlier(gates, pending, c);
        OwedIsBounded(gates[..n], RemoveAt(pending, c));
      } else {
        OwedIsBounded(gates[..n], pending);
      }
    }
  }

  /**
   With one writer per gate the counter is never wrapped: it is the exact count
   and lies between zero and the number of gates, those being registered included.
   */
  lemma {:induction false} OneWriterNeverWraps(s: State, ms: seq<Move>)
    requires Agrees(s) && Orderly(s) && ValidWithin(s, ms, 1)
    ensures ValidMoves(s, ms)
    ensures var t := Moves(s, ms);
      && 0 <= Exact(t) <= |t.gates| + |t.registering|
      && (|t.gates| + |t.registering| < WORD ==> t.counter == Exact(t))
    decreases |ms|
  {
    if ms == [] {
      OwedIsBounded(s.gates, s.pending);
    } else {
      MoveKeepsOrderly(s, ms[0]);
      MoveKeepsAgreement(s, ms[0]);
      OneWriterNeverWraps(Apply(s, ms[0]), ms[1..]);
    }
  }

  // ------------------------------------------------------------------------
  // More than one writer
  // ------------------------------------------------------------------------

  predicate Quiet(s: State) {
    s.registering == [] && s.pending == []
  }

  ghost predicate AllReady(gates: seq<Gate>, n: nat) {
    n <= |gates| && forall i :: 0 <= i < n ==> gates[i].ready
  }

  lemma {:induction false} NoneUnready(gates: seq<Gate>)
    requires AllReady(gates, |gates|)
    ensures Unready(gates) == 0
  {
    if gates != [] {
      NoneUnready(gates[..|gates| - 1]);
    }
  }

  /** What one owner does to make a gate ready, when it is not. */
  function MadeReady(s: State, g: nat): State
    requires Quiet(s) && g < |s.gates| && !s.gates[g].ready
  {
    State(s.gates[g := s.gates[g].(ready := true)], (s.counter - 1) % WORD, [], [])
  }

  lemma MakesReady(s: State, g: nat, rest: seq<Move>, k: nat)
    requires Quiet(s) && g < |s.gates| && !s.gates[g].ready && k >= 1
    requires ValidMoves(MadeReady(s, g), rest) && ValidWithin(MadeReady(s, g), rest, k)
    ensures var ms := [Swap(g, true), Settle(0)] + rest;
      ValidMoves(s, ms) && ValidWithin(s, ms, k) && Moves(s, ms) == Moves(MadeReady(s, g), rest)
  {
    var ms := [Swap(g, true), Settle(0)] + rest;
    assert ms[1..] == [Settle(0)] + rest && ms[1..][1..] == rest;
    var swapped := Apply(s, Swap(g, true));
    assert swapped.pending == [Pending(g, true)];
    assert Apply(swapped, Settle(0)) == MadeReady(s, g);
  }

  lemma ThreeMoves(s: State, a: Move, b: Move, c: Move, k: nat)
    requires CanMove(s, a) && MayCall(s, a, k)
    requires CanMove(Apply(s, a), b) && MayCall(Apply(s, a), b, k)
    requires CanMove(Apply(Apply(s, a), b), c) && MayCall(Apply(Apply(s, a), b), c, k)
    ensures ValidMoves(s, [a, b, c]) && ValidWithin(s, [a, b, c], k)
    ensures Moves(s, [a, b, c]) == Apply(Apply(Apply(s, a), b), c)
  {
    var ms := [a, b, c];
    assert ms[1..] == [b, c] && ms[1..][1..] == [c] && ms[1..][1..][1..] == [];
    var last := Apply(Apply(s, a), b);
    assert ValidMoves(last, [c]) && ValidWithin(last, [c], k) && Moves(last, [c]) == Apply(last, c);
  }

  /** With every gate ready and no call in flight, two overlapping calls on one gate wrap the counter. */
  lemma OverlappingCallsWrap(s: State, g: nat)
    requires Agrees(s) && Quiet(s) && g < |s.gates| && AllReady(s.gates, |s.gates|)
    ensures var ms := [Swap(g, false), Swap(g, true), Settle(1)];
      ValidMoves(s, ms) && ValidWithin(s, ms, 2) && Exact(Moves(s, ms)) == -1 && Moves(s, ms).counter == WORD - 1
  {
    NoneUnready(s.gates);
    OverlappingCalls(s, g);
    ThreeMoves(s, Swap(g, false), Swap(g, true), Settle(1), 2);
  }

  lemma OverlappingCalls(s: State, g: nat)
    requires Quiet(s) && s.counter == 0 && g < |s.gates| && s.gates[g].ready
    ensures var closed := Apply(s, Swap(g, false));
      && CanMove(closed, Swap(g, true)) && MayCall(closed, Swap(g, true), 2)
      && var reopened := Apply(closed, Swap(g, true));
         CanMove(reopened, Settle(1)) && Apply(reopened, Settle(1)) == State(s.gates, WORD - 1, [], [Pending(g, false)])
  {
    var closed := Apply(s, Swap(g, false));
    assert closed.pending == [Pending(g, false)];
    var reopened := Apply(closed, Swap(g, true));
    assert reopened.gates == s.gates && reopened.pending == [Pending(g, false), Pending(g, true)];
  }

  /** From any quiet state, two writers can be driven to the wrap: every gate is first made ready by one owner. */
  lemma {:induction false} TwoWritersWrap(s: State, n: nat) returns (ms: seq<Move>)
    requires Agrees(s) && Quiet(s) && s.gates != [] && AllReady(s.gates, n)
    ensures ValidMoves(s, ms) && ValidWithin(s, ms, 2)
    ensures Exact(Moves(s, ms)) == -1 && Moves(s, ms).counter == WORD - 1
    decreases |s.gates| - n
  {
    if n == |s.gates| {
      OverlappingCallsWrap(s, 0);
      ms := [Swap(0, false), Swap(0, true), Settle(1)];
    } else if s.gates[n].ready {
      ms := TwoWritersWrap(s, n + 1);
    } else {
      MadeReadyAgrees(s, n);
      var rest := TwoWritersWrap(MadeReady(s, n), n + 1);
      MakesReady(s, n, rest, 2);
      ms := [Swap(n, true), Settle(0)] + rest;
    }
  }

  lemma MadeReadyAgrees(s: State, g: nat)
    requires Agrees(s) && Quiet(s) && g < |s.gates| && !s.gates[g].ready
    ensures Agrees(MadeReady(s, g))
  {
    UnreadyAfterSwap(s.gates, g);
    WrappedStep(Exact(s), -1);
  }

  lemma {:induction false} MoreMayCall(s: State, ms: seq<Move>, few: nat, many: nat)
    requires ValidWithin(s, ms, few) && few <= many
    ensures ValidMoves(s, ms) && ValidWithin(s, ms, many)
    decreases |ms|
  {
    if ms != [] {
      MoreMayCall(Apply(s, ms[0]), ms[1..], few, many);
    }
  }

  /** Under a discipline of at most `k` calls in flight on a gate the true count never falls below zero. */
  ghost predicate NeverWraps(s: State, k: nat) {
    forall ms :: ValidMoves(s, ms) && ValidWithin(s, ms, k) ==> Exact(Moves(s, ms)) >= 0
  }

  /**
   When the counter can wrap: from any quiet state with a gate, exactly when two
   calls on one gate may overlap.
   */
  lemma WrapsIffCallsOverlap(s: State, k: nat)
    requires Agrees(s) && Quiet(s) && s.gates != []
    ensures NeverWraps(s, k) <==> k <= 1
  {
    if k <= 1 {
      forall ms | ValidMoves(s, ms) && ValidWithin(s, ms, k) ensures Exact(Moves(s, ms)) >= 0 {
        MoreMayCall(s, ms, k, 1);
        OneWriterNeverWraps(s, ms);
      }
    } else {
      var ms := TwoWritersWrap(s, 0);
      MoreMayCall(s, ms, 2, k);
    }
  }

  /** The shortest such run from the start: a gate is registered and made ready, and a subtraction overtakes an addition. */
  lemma TwoWritersCanWrap()
    ensures var ms := [Count("nats"), Push(0), Swap(0, true), Settle(0), Swap(0, false), Swap(0, true), Settle(1)];
      ValidMoves(EMPTY, ms) && Moves(EMPTY, ms).counter == WORD - 1
  {
    var counted := Apply(EMPTY, Count("nats"));
    var registered := Apply(counted, Push(0));
    assert registered == State([Gate("nats", false)], 1, [], []);
    var ready := MadeReady(registered, 0);
    MadeReadyAgrees(registered, 0);
    OverlappingCallsWrap(ready, 0);
    var last := [Swap(0, false), Swap(0, true), Settle(1)];
    MakesReady(registered, 0, last, 2);
    var rest := [Swap(0, true), Settle(0)] + last;
    var ms := [Count("nats"), Push(0), Swap(0, true), Settle(0), Swap(0, false), Swap(0, true), Settle(1)];
    assert ms[1..] == [Push(0)] + rest && ms[1..][1..] == rest;
  }

  // ------------------------------------------------------------------------
  // The calls themselves, run without interference
  // ------------------------------------------------------------------------

  class Registry {
    var gates: seq<Gate>
    var counter: nat

    function Snapshot(): State
      reads this
    {
      State(gates, counter, [], [])
    }

    constructor ()
      ensures Snapshot() == EMPTY
    {
      gates, counter := [], 0;
    }

    method AddGate(name: string) returns (gate: nat)
      modifies this
      ensures var counted := Apply(old(Snapshot()), Count(name)); Snapshot() == Apply(counted, Push(0))
      ensures gate == |old(gates)|
    {
      counter := (counter + 1) % WORD;
      gates := gates + [Gate(name, false)];
      gate := |gates| - 1;
    }

    method SetReady(gate: nat, ready: bool)
      requires gate < |gates|
      modifies this
      ensures var swapped := Apply(old(Snapshot()), Swap(gate, ready));
        Snapshot() == if swapped.pending == [] then swapped else Apply(swapped, Settle(0))
    {
      var was := gates[gate].ready;
      gates := gates[gate := gates[gate].(ready := ready)];
      if was == ready {
        return;
      }
      counter := if ready then (counter - 1) % WORD else (counter + 1) % WORD;
    }
  }
}
