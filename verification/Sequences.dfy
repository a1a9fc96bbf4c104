/** Regrouping, and what removing, appending and dropping keep of sequences without repeats. */
module Sequences {
  import opened Wrappers

  function RemoveAt<T>(s: seq<T>, i: nat): seq<T>
    requires i < |s|
  {
    s[..i] + s[i + 1..]
  }

  /** The first element that passes a test. */
  function Position<T>(s: seq<T>, passes: T -> bool): (r: Option<nat>)
    ensures r.Some? ==> r.value < |s| && passes(s[r.value]) && forall j :: 0 <= j < r.value ==> !passes(s[j])
    ensures r.None? ==> forall j :: 0 <= j < |s| ==> !passes(s[j])
    decreases |s|
  {
    if s == [] then None
    else if passes(s[0]) then Some(0)
    else
      match Position(s[1..], passes)
      case None => assert forall j :: 1 <= j < |s| ==> s[j] == s[1..][j - 1]; None
      case Some(i) => assert forall j :: 1 <= j < |s| ==> s[j] == s[1..][j - 1]; Some(i + 1)
  }

  function Projected<T, U>(s: seq<T>, part: T -> U): (r: seq<U>)
    ensures |r| == |s|
  {
    seq(|s|, i requires 0 <= i < |s| => part(s[i]))
  }

  ghost predicate NoRepeats<T>(s: seq<T>) {
    forall i, j :: 0 <= i < j < |s| ==> s[i] != s[j]
  }

  lemma RemoveAtKeeps<T>(s: seq<T>, i: nat)
    requires i < |s| && NoRepeats(s)
    ensures NoRepeats(RemoveAt(s, i))
    ensures forall x :: x in RemoveAt(s, i) <==> x in s && x != s[i]
  {
  }

  lemma AppendKeeps<T>(s: seq<T>, x: T)
    requires NoRepeats(s) && x !in s
    ensures NoRepeats(s + [x])
  {
  }

  lemma DropKeeps<T>(s: seq<T>, n: nat)
    requires n <= |s| && NoRepeats(s)
    ensures NoRepeats(s[n..])
    ensures forall x :: x in s[n..] ==> x in s
  {
  }

  lemma Regroup<T>(a: seq<T>, b: seq<T>, c: seq<T>)
    ensures (a + b) + c == a + (b + c)
  {
  }
}
