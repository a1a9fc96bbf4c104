/**
 NATS subjects: the translation of a declared pattern into its wire subject, the
 overlap test that keeps routing unambiguous, and the values a match captures.
 */
module Subjects {
  import opened Characters
  import opened Wrappers

  // ------------------------------------------------------------------------
  // Tokens
  // ------------------------------------------------------------------------

  function Split(s: string): (tokens: seq<string>)
    ensures |tokens| > 0
  {
    if s == "" then [""]
    else
      var rest := Split(s[1..]);
      if s[0] == '.' then [""] + rest else [[s[0]] + rest[0]] + rest[1..]
  }

  lemma {:induction false} SplitLeavesNoDot(s: string)
    ensures forall t :: t in Split(s) ==> '.' !in t
  {
    if s != "" {
      SplitLeavesNoDot(s[1..]);
      assert Split(s[1..])[0] in Split(s[1..]);
    }
  }

  function Join(tokens: seq<string>): string
    requires |tokens| > 0
  {
    if |tokens| == 1 then tokens[0] else tokens[0] + "." + Join(tokens[1..])
  }

  lemma {:induction false} JoinInvertsSplit(s: string)
    ensures Join(Split(s)) == s
  {
    if s != "" {
      var rest := Split(s[1..]);
      JoinInvertsSplit(s[1..]);
      if s[0] == '.' {
        assert ([""] + rest)[1..] == rest;
        assert s == "." + s[1..];
      } else {
        var tokens := [[s[0]] + rest[0]] + rest[1..];
        assert tokens[1..] == rest[1..];
        assert s == [s[0]] + s[1..];
      }
    }
  }

  lemma {:induction false} SplitPrepend(t: string, rest: string)
    requires '.' !in t
    ensures Split(t + "." + rest) == [t] + Split(rest)
  {
    var s := t + "." + rest;
    if t == "" {
      assert s[1..] == rest;
    } else {
      assert s[1..] == t[1..] + "." + rest;
      SplitPrepend(t[1..], rest);
      assert [s[0]] + t[1..] == t;
    }
  }

  lemma {:induction false} SplitOne(t: string)
    requires '.' !in t
    ensures Split(t) == [t]
  {
    if t != "" {
      SplitOne(t[1..]);
      assert [t[0]] + t[1..] == t;
    }
  }

  lemma {:induction false} SplitInvertsJoin(tokens: seq<string>)
    requires |tokens| > 0 && forall t :: t in tokens ==> '.' !in t
    ensures Split(Join(tokens)) == tokens
  {
    if |tokens| == 1 {
      SplitOne(tokens[0]);
    } else {
      SplitInvertsJoin(tokens[1..]);
      SplitPrepend(tokens[0], Join(tokens[1..]));
    }
  }

  predicate IsBlank(token: string) {
    exists k :: 0 <= k < |token| && (IsWhitespace(token[k]) || IsControl(token[k]))
  }

  // ------------------------------------------------------------------------
  // Patterns
  // ------------------------------------------------------------------------

  datatype Param = Param(name: string, index: nat)

  datatype Pattern = Pattern(wire: string, params: seq<Param>)

  datatype SubjectError =
    | EmptySubject
    | EmptyToken
    | RawWildcard(token: string)
    | PartialCapture(token: string)
    | BlankInToken(token: string)
    | BadParameterName(token: string)
    | RepeatedParameter(name: string)

  predicate IsCapture(token: string) {
    |token| >= 2 && token[0] == '{' && token[|token| - 1] == '}'
  }

  function Name(token: string): string
    requires IsCapture(token)
  {
    token[1..|token| - 1]
  }

  predicate IsName(name: string) {
    name != "" && forall k :: 0 <= k < |name| ==> IsWordChar(name[k])
  }

  /** What is wrong with token `i` of a pattern, given the tokens before it. */
  function Fault(tokens: seq<string>, i: nat): Option<SubjectError>
    requires i < |tokens|
  {
    var token := tokens[i];
    if token == "" then Some(EmptyToken)
    else if token == "*" || token == ">" then Some(RawWildcard(token))
    else if !IsCapture(token) then
      if '{' in token || '}' in token || '*' in token || '>' in token then Some(PartialCapture(token))
      else if IsBlank(token) then Some(BlankInToken(token))
      else None
    else if !IsName(Name(token)) then Some(BadParameterName(token))
    else if token in tokens[..i] then Some(RepeatedParameter(Name(token)))
    else None
  }

  /** None of the first `n` tokens is at fault. */
  predicate FaultlessTo(tokens: seq<string>, n: nat)
    requires n <= |tokens|
  {
    n > 0 ==> Fault(tokens, n - 1) == None && FaultlessTo(tokens, n - 1)
  }

  predicate Faultless(tokens: seq<string>) {
    FaultlessTo(tokens, |tokens|)
  }

  predicate IsFirstFault(tokens: seq<string>, i: nat, error: SubjectError) {
    i < |tokens| && Fault(tokens, i) == Some(error) && FaultlessTo(tokens, i)
  }

  lemma {:induction false} NoFaultAt(tokens: seq<string>, n: nat, i: nat)
    requires i < n <= |tokens| && FaultlessTo(tokens, n)
    ensures Fault(tokens, i) == None
  {
    if i < n - 1 {
      NoFaultAt(tokens, n - 1, i);
    }
  }

  lemma AFaultIsNotFaultless(tokens: seq<string>, i: nat)
    requires i < |tokens| && Fault(tokens, i).Some?
    ensures !Faultless(tokens)
  {
    if Faultless(tokens) {
      NoFaultAt(tokens, |tokens|, i);
    }
  }

  /** A token that stands for itself. */
  predicate IsLiteralToken(token: string) {
    && token != ""
    && forall k :: 0 <= k < |token| ==>
         && token[k] != '{' && token[k] != '}' && token[k] != '*' && token[k] != '>'
         && !IsWhitespace(token[k]) && !IsControl(token[k])
  }

  /** A parameter's name: ASCII letters, digits and underscores. */
  predicate IsParameterName(name: string) {
    && name != ""
    && forall k :: 0 <= k < |name| ==>
         'a' <= name[k] <= 'z' || 'A' <= name[k] <= 'Z' || '0' <= name[k] <= '9' || name[k] == '_'
  }

  lemma BracesMakeACapture(name: string)
    ensures IsCapture("{" + name + "}") && Name("{" + name + "}") == name
  {
  }

  lemma LiteralsAndCaptures(tokens: seq<string>, i: nat)
    requires i < |tokens|
    ensures Fault(tokens, i).None? <==>
            || IsLiteralToken(tokens[i])
            || (tokens[i] !in tokens[..i] && exists name :: IsParameterName(name) && tokens[i] == "{" + name + "}")
  {
    var token := tokens[i];
    if IsCapture(token) {
      assert token == "{" + Name(token) + "}";
      assert IsName(Name(token)) <==> IsParameterName(Name(token));
      forall name | IsParameterName(name) && token == "{" + name + "}" ensures name == Name(token) {}
    } else {
      forall name ensures token != "{" + name + "}" {
        BracesMakeACapture(name);
      }
    }
  }

  /** Which tokens each fault is found with, names given by their braces. */
  lemma FaultsAreTold(tokens: seq<string>, i: nat, name: string)
    requires i < |tokens|
    ensures tokens[i] == "" ==> Fault(tokens, i) == Some(EmptyToken)
    ensures tokens[i] == "*" || tokens[i] == ">" ==> Fault(tokens, i) == Some(RawWildcard(tokens[i]))
    ensures tokens[i] == "{" + name + "}" ==>
              Fault(tokens, i) ==
              if !IsParameterName(name) then Some(BadParameterName(tokens[i]))
              else if exists j :: 0 <= j < i && tokens[j] == tokens[i] then Some(RepeatedParameter(name))
              else None
    ensures Fault(tokens, i) == Some(BlankInToken(tokens[i])) ==>
              exists k :: 0 <= k < |tokens[i]| && (IsWhitespace(tokens[i][k]) || IsControl(tokens[i][k]))
    ensures Fault(tokens, i) == Some(PartialCapture(tokens[i])) ==>
              && |tokens[i]| >= 1 && tokens[i] != "*" && tokens[i] != ">"
              && exists k :: 0 <= k < |tokens[i]| && tokens[i][k] in "{}*>"
  {
    BracesMakeACapture(name);
  }

  lemma {:induction false} FirstFaultIsOne(tokens: seq<string>, i: nat, error: SubjectError, j: nat, other: SubjectError)
    requires IsFirstFault(tokens, i, error) && IsFirstFault(tokens, j, other)
    ensures i == j && error == other
  {
    if i < j {
      NoFaultAt(tokens, j, i);
    } else if j < i {
      NoFaultAt(tokens, i, j);
    }
  }

  lemma {:induction false} FaultlessIfNoneAt(tokens: seq<string>, n: nat)
    requires n <= |tokens|
    ensures FaultlessTo(tokens, n) <==> forall i: nat :: i < n ==> Fault(tokens, i).None?
  {
    if n > 0 {
      FaultlessIfNoneAt(tokens, n - 1);
    }
  }

  /**
   The patterns that are accepted: every token stands for itself, or is a
   parameter's name in braces that no earlier token is.
   */
  lemma AcceptedPatterns(tokens: seq<string>)
    ensures Faultless(tokens) <==>
            forall i: nat :: i < |tokens| ==>
              || IsLiteralToken(tokens[i])
              || (tokens[i] !in tokens[..i] && exists name :: IsParameterName(name) && tokens[i] == "{" + name + "}")
  {
    FaultlessIfNoneAt(tokens, |tokens|);
    forall i: nat | i < |tokens|
      ensures Fault(tokens, i).None? <==>
              || IsLiteralToken(tokens[i])
              || (tokens[i] !in tokens[..i] && exists name :: IsParameterName(name) && tokens[i] == "{" + name + "}")
    {
      LiteralsAndCaptures(tokens, i);
    }
  }

  function WireToken(token: string): string {
    if IsCapture(token) then "*" else token
  }

  function WireTokens(tokens: seq<string>): seq<string> {
    seq(|tokens|, i requires 0 <= i < |tokens| => WireToken(tokens[i]))
  }

  /** The captures among the first `n` tokens, each with the index it reads. */
  function Captures(tokens: seq<string>, n: nat): seq<Param>
    requires n <= |tokens|
  {
    if n == 0 then []
    else if IsCapture(tokens[n - 1]) then Captures(tokens, n - 1) + [Param(Name(tokens[n - 1]), n - 1)]
    else Captures(tokens, n - 1)
  }

  lemma {:induction false} CapturesAreTheCaptures(tokens: seq<string>, n: nat, p: Param)
    requires n <= |tokens|
    ensures p in Captures(tokens, n) <==> p.index < n && IsCapture(tokens[p.index]) && p.name == Name(tokens[p.index])
  {
    if n > 0 {
      CapturesAreTheCaptures(tokens, n - 1, p);
    }
  }

  lemma SameNameSameToken(a: string, b: string)
    requires IsCapture(a) && IsCapture(b) && Name(a) == Name(b)
    ensures a == b
  {
  }

  lemma NameIsTaken(tokens: seq<string>, i: nat)
    requires i < |tokens| && IsCapture(tokens[i])
    ensures (exists p :: p in Captures(tokens, i) && p.name == Name(tokens[i])) <==> tokens[i] in tokens[..i]
  {
    var params := Captures(tokens, i);
    if p :| p in params && p.name == Name(tokens[i]) {
      CapturesAreTheCaptures(tokens, i, p);
      SameNameSameToken(tokens[p.index], tokens[i]);
      assert tokens[..i][p.index] == tokens[i];
    }
    if tokens[i] in tokens[..i] {
      var j :| 0 <= j < i && tokens[j] == tokens[i];
      CapturesAreTheCaptures(tokens, i, Param(Name(tokens[j]), j));
    }
  }

  /** The body of the loop for one token: its wire form, or its fault. */
  method TranslateToken(tokens: seq<string>, index: nat, params: seq<Param>) returns (r: Result<string, SubjectError>)
    requires index < |tokens| && params == Captures(tokens, index)
    ensures Fault(tokens, index) == if r.Err? then Some(r.error) else None
    ensures r.Ok? ==> r.value == WireToken(tokens[index])
  {
    var token := tokens[index];
    if token == "" {
      return Err(EmptyToken);
    }
    if token == "*" || token == ">" {
      return Err(RawWildcard(token));
    }
    if !IsCapture(token) {
      if '{' in token || '}' in token || '*' in token || '>' in token {
        return Err(PartialCapture(token));
      }
      if IsBlank(token) {
        return Err(BlankInToken(token));
      }
      return Ok(token);
    }
    if !IsName(Name(token)) {
      return Err(BadParameterName(token));
    }
    NameIsTaken(tokens, index);
    if exists k :: 0 <= k < |params| && params[k].name == Name(token) {
      return Err(RepeatedParameter(Name(token)));
    }
    return Ok("*");
  }

  /** The pattern is accepted when no token is at fault; otherwise the first fault is reported. */
  method ParseSubject(pattern: string) returns (r: Result<Pattern, SubjectError>)
    ensures r.Ok? <==> pattern != "" && Faultless(Split(pattern))
    ensures r.Ok? ==>
              && r.value.wire == Join(WireTokens(Split(pattern)))
              && r.value.params == Captures(Split(pattern), |Split(pattern)|)
    ensures r.Err? ==>
              if pattern == "" then r.error == EmptySubject
              else exists i: nat :: IsFirstFault(Split(pattern), i, r.error)
  {
    if pattern == "" {
      return Err(EmptySubject);
    }
    var tokens := Split(pattern);
    var wire: seq<string> := [];
    var params: seq<Param> := [];
    for index := 0 to |tokens|
      invariant FaultlessTo(tokens, index)
      invariant |wire| == index && forall j :: 0 <= j < index ==> wire[j] == WireToken(tokens[j])
      invariant params == Captures(tokens, index)
    {
      var translated := TranslateToken(tokens, index, params);
      if translated.Err? {
        assert IsFirstFault(tokens, index, translated.error);
        AFaultIsNotFaultless(tokens, index);
        return Err(translated.error);
      }
      if IsCapture(tokens[index]) {
        params := params + [Param(Name(tokens[index]), index)];
      }
      wire := wire + [translated.value];
    }
    assert |wire| == |WireTokens(tokens)| && forall j :: 0 <= j < |tokens| ==> wire[j] == WireTokens(tokens)[j];
    assert wire == WireTokens(tokens);
    r := Ok(Pattern(Join(wire), params));
  }

  // ------------------------------------------------------------------------
  // Matching and overlap
  // ------------------------------------------------------------------------

  /** A token a message can be published under. */
  predicate IsConcreteToken(token: string) {
    token != "" && '*' !in token && '>' !in token && !IsBlank(token)
  }

  ghost predicate IsConcrete(subject: string) {
    forall t :: t in Split(subject) ==> IsConcreteToken(t)
  }

  /** What `ParseSubject` can produce: concrete tokens and single-token wildcards. */
  ghost predicate IsWire(subject: string) {
    forall t :: t in Split(subject) ==> t == "*" || IsConcreteToken(t)
  }

  /** The broker's rule: a `*` stands for exactly one token, anything else for itself. */
  ghost predicate Matches(wire: string, subject: string) {
    var w, s := Split(wire), Split(subject);
    |w| == |s| && forall i :: 0 <= i < |w| ==> w[i] == "*" || w[i] == s[i]
  }

  predicate SubjectsOverlap(first: string, second: string) {
    var a, b := Split(first), Split(second);
    |a| == |b| && forall i :: 0 <= i < |a| ==> a[i] == "*" || b[i] == "*" || a[i] == b[i]
  }

  /** A subject both wire subjects match, when they overlap. */
  function Witness(first: string, second: string): string
    requires SubjectsOverlap(first, second)
  {
    var a, b := Split(first), Split(second);
    Join(seq(|a|, i requires 0 <= i < |a| => if a[i] != "*" then a[i] else if b[i] != "*" then b[i] else "any"))
  }

  /** A token that stands for itself is a concrete one without braces. */
  lemma LiteralsAreConcrete(token: string)
    ensures IsLiteralToken(token) <==> IsConcreteToken(token) && '{' !in token && '}' !in token
  {
    if IsLiteralToken(token) {
      forall c | c in token ensures c != '*' && c != '>' && c != '{' && c != '}' {
        var k :| 0 <= k < |token| && token[k] == c;
      }
    } else if token != "" && !IsBlank(token) {
      var k :| 0 <= k < |token| && (token[k] == '{' || token[k] == '}' || token[k] == '*' || token[k] == '>');
      assert token[k] in token;
    }
  }

  lemma WireOfToken(token: string, name: string)
    ensures WireToken("{" + name + "}") == "*"
    ensures IsLiteralToken(token) ==> WireToken(token) == token && token != "*"
  {
    BracesMakeACapture(name);
    if IsLiteralToken(token) {
      assert token[0] != '{' && token[0] != '*';
    }
  }

  lemma AnyIsConcrete()
    ensures IsConcreteToken("any")
  {
  }

  lemma OverlapHasAWitness(first: string, second: string)
    requires IsWire(first) && IsWire(second) && SubjectsOverlap(first, second)
    ensures var s := Witness(first, second); IsConcrete(s) && Matches(first, s) && Matches(second, s)
  {
    AnyIsConcrete();
    SplitLeavesNoDot(first);
    SplitLeavesNoDot(second);
    var a, b := Split(first), Split(second);
    var tokens := seq(|a|, i requires 0 <= i < |a| => if a[i] != "*" then a[i] else if b[i] != "*" then b[i] else "any");
    forall t | t in tokens ensures '.' !in t && IsConcreteToken(t) {
      var i :| 0 <= i < |a| && tokens[i] == t;
      assert a[i] in a && b[i] in b;
    }
    SplitInvertsJoin(tokens);
  }

  /** Two wire subjects overlap exactly when some concrete subject matches both. */
  lemma OverlapIsSharedSubject(first: string, second: string)
    requires IsWire(first) && IsWire(second)
    ensures SubjectsOverlap(first, second) <==>
            exists s :: IsConcrete(s) && Matches(first, s) && Matches(second, s)
  {
    if SubjectsOverlap(first, second) {
      OverlapHasAWitness(first, second);
    }
  }

  // ------------------------------------------------------------------------
  // Routing
  // ------------------------------------------------------------------------

  datatype Route = Route(subject: string, wireSubject: string)

  datatype Conflict = Conflict(firstSubject: string, secondSubject: string)

  function FirstOverlapping(first: Route, rest: seq<Route>): Option<Conflict> {
    if rest == [] then None
    else if SubjectsOverlap(first.wireSubject, rest[0].wireSubject) then
      Some(Conflict(first.subject, rest[0].subject))
    else FirstOverlapping(first, rest[1..])
  }

  function FindConflict(routes: seq<Route>): Option<Conflict> {
    if routes == [] then None
    else
      var hit := FirstOverlapping(routes[0], routes[1..]);
      if hit.Some? then hit else FindConflict(routes[1..])
  }

  predicate Overlapping(routes: seq<Route>, i: nat, j: nat) {
    i < j < |routes| && SubjectsOverlap(routes[i].wireSubject, routes[j].wireSubject)
  }

  lemma {:induction false} FirstOverlappingFinds(first: Route, rest: seq<Route>)
    ensures FirstOverlapping(first, rest) == None <==>
            forall j :: 0 <= j < |rest| ==> !SubjectsOverlap(first.wireSubject, rest[j].wireSubject)
    ensures FirstOverlapping(first, rest).Some? ==>
              exists j :: && 0 <= j < |rest| && SubjectsOverlap(first.wireSubject, rest[j].wireSubject)
                          && FirstOverlapping(first, rest).value == Conflict(first.subject, rest[j].subject)
                          && forall k :: 0 <= k < j ==> !SubjectsOverlap(first.wireSubject, rest[k].wireSubject)
  {
    if rest != [] && !SubjectsOverlap(first.wireSubject, rest[0].wireSubject) {
      FirstOverlappingFinds(first, rest[1..]);
      if FirstOverlapping(first, rest) == None {
        forall j | 0 <= j < |rest| ensures !SubjectsOverlap(first.wireSubject, rest[j].wireSubject) {
          if j > 0 { assert rest[1..][j - 1] == rest[j]; }
        }
      } else {
        var j :| && 0 <= j < |rest[1..]| && SubjectsOverlap(first.wireSubject, rest[1..][j].wireSubject)
                 && FirstOverlapping(first, rest).value == Conflict(first.subject, rest[1..][j].subject)
                 && forall k :: 0 <= k < j ==> !SubjectsOverlap(first.wireSubject, rest[1..][k].wireSubject);
        assert rest[j + 1] == rest[1..][j];
        forall k | 0 <= k < j + 1 ensures !SubjectsOverlap(first.wireSubject, rest[k].wireSubject) {
          if k > 0 { assert rest[1..][k - 1] == rest[k]; }
        }
      }
    }
  }

  /** The pair a conflict names: the first overlapping one, in order of its first route and then of its second. */
  ghost predicate IsFirstPair(routes: seq<Route>, i: nat, j: nat) {
    && Overlapping(routes, i, j)
    && (forall k, l :: 0 <= k < i && k < l < |routes| ==> !Overlapping(routes, k, l))
    && (forall l :: i < l < j ==> !Overlapping(routes, i, l))
  }

  lemma FirstPairShifts(routes: seq<Route>, i: nat, j: nat)
    requires routes != [] && IsFirstPair(routes[1..], i, j)
    requires forall l :: 1 <= l < |routes| ==> !Overlapping(routes, 0, l)
    ensures IsFirstPair(routes, i + 1, j + 1)
  {
    var rest := routes[1..];
    assert Overlapping(rest, i, j);
    forall k, l | 0 <= k < i + 1 && k < l < |routes| ensures !Overlapping(routes, k, l) {
      if k > 0 { assert !Overlapping(rest, k - 1, l - 1); }
    }
    var first := i + 1;
    forall l | first < l < j + 1 ensures !Overlapping(routes, first, l) {
      assert !Overlapping(rest, i, l - 1);
    }
  }

  lemma {:induction false} FindConflictFinds(routes: seq<Route>)
    ensures FindConflict(routes) == None <==> forall i, j :: 0 <= i < j < |routes| ==> !Overlapping(routes, i, j)
    ensures FindConflict(routes).Some? ==>
              exists i: nat, j: nat :: && IsFirstPair(routes, i, j)
                             && FindConflict(routes).value == Conflict(routes[i].subject, routes[j].subject)
  {
    if routes != [] {
      var rest := routes[1..];
      FirstOverlappingFinds(routes[0], rest);
      assert forall j :: 1 <= j < |routes| ==>
          (Overlapping(routes, 0, j) <==> SubjectsOverlap(routes[0].wireSubject, rest[j - 1].wireSubject));
      if FirstOverlapping(routes[0], rest).Some? {
        var j :| && 0 <= j < |rest| && SubjectsOverlap(routes[0].wireSubject, rest[j].wireSubject)
                 && FindConflict(routes).value == Conflict(routes[0].subject, rest[j].subject)
                 && forall k :: 0 <= k < j ==> !SubjectsOverlap(routes[0].wireSubject, rest[k].wireSubject);
        assert IsFirstPair(routes, 0, j + 1);
      } else {
        FindConflictFinds(rest);
        if FindConflict(rest).Some? {
          var i: nat, j: nat :|
            IsFirstPair(rest, i, j) && FindConflict(rest).value == Conflict(rest[i].subject, rest[j].subject);
          FirstPairShifts(routes, i, j);
        } else {
          forall i, j | 0 <= i < j < |routes| ensures !Overlapping(routes, i, j) {
            if i > 0 { assert !Overlapping(rest, i - 1, j - 1); }
          }
        }
      }
    }
  }

  ghost predicate ReachesBoth(routes: seq<Route>, s: string, i: nat, j: nat) {
    i < j < |routes| && Matches(routes[i].wireSubject, s) && Matches(routes[j].wireSubject, s)
  }

  /** No conflict is found exactly when no concrete subject reaches two routes. */
  lemma RoutingIsUnambiguous(routes: seq<Route>)
    requires forall r :: r in routes ==> IsWire(r.wireSubject)
    ensures FindConflict(routes) == None <==>
            forall s, i: nat, j: nat :: IsConcrete(s) ==> !ReachesBoth(routes, s, i, j)
  {
    FindConflictFinds(routes);
    if FindConflict(routes) == None {
      forall s, i: nat, j: nat | IsConcrete(s) ensures !ReachesBoth(routes, s, i, j) {
        if ReachesBoth(routes, s, i, j) {
          ReachingBothOverlaps(routes, s, i, j);
        }
      }
    } else {
      var i: nat, j: nat :| IsFirstPair(routes, i, j);
      assert routes[i] in routes && routes[j] in routes;
      OverlapHasAWitness(routes[i].wireSubject, routes[j].wireSubject);
      assert ReachesBoth(routes, Witness(routes[i].wireSubject, routes[j].wireSubject), i, j);
    }
  }

  lemma ReachingBothOverlaps(routes: seq<Route>, s: string, i: nat, j: nat)
    requires ReachesBoth(routes, s, i, j)
    ensures Overlapping(routes, i, j)
  {
  }

  // ------------------------------------------------------------------------
  // Captured values
  // ------------------------------------------------------------------------

  function ExtractParams(params: seq<Param>, subject: string): map<string, string> {
    if params == [] then map[] else TokensAt(params, Split(subject))
  }

  function TokensAt(params: seq<Param>, tokens: seq<string>): map<string, string> {
    if params == [] then map[]
    else
      var before, last := TokensAt(params[..|params| - 1], tokens), params[|params| - 1];
      if last.index < |tokens| then before[last.name := tokens[last.index]] else before
  }

  /** The declared pattern with every capture replaced by its value. */
  function Fill(pattern: string, values: map<string, string>): string {
    var tokens := Split(pattern);
    Join(seq(|tokens|, i requires 0 <= i < |tokens| =>
      if IsCapture(tokens[i]) && Name(tokens[i]) in values then values[Name(tokens[i])] else tokens[i]))
  }

  function CaptureNames(tokens: seq<string>, n: nat): set<string>
    requires n <= |tokens|
  {
    if n == 0 then {}
    else if IsCapture(tokens[n - 1]) then CaptureNames(tokens, n - 1) + {Name(tokens[n - 1])}
    else CaptureNames(tokens, n - 1)
  }

  lemma {:induction false} CaptureNamesAreTheNames(tokens: seq<string>, n: nat, name: string)
    requires n <= |tokens|
    ensures name in CaptureNames(tokens, n) <==> exists i :: 0 <= i < n && IsCapture(tokens[i]) && Name(tokens[i]) == name
  {
    if n > 0 {
      CaptureNamesAreTheNames(tokens, n - 1, name);
    }
  }

  /** `values` holds, for each capture among the first `n` tokens, what the subject has there. */
  ghost predicate HoldsCaptures(tokens: seq<string>, n: nat, at: seq<string>, values: map<string, string>)
    requires n <= |tokens| <= |at|
  {
    forall i :: 0 <= i < n && IsCapture(tokens[i]) ==>
      Name(tokens[i]) in values && values[Name(tokens[i])] == at[i]
  }

  lemma HoldsOneMore(tokens: seq<string>, n: nat, at: seq<string>, values: map<string, string>)
    requires n < |tokens| <= |at| && IsCapture(tokens[n]) && tokens[n] !in tokens[..n]
    requires HoldsCaptures(tokens, n, at, values)
    ensures HoldsCaptures(tokens, n + 1, at, values[Name(tokens[n]) := at[n]])
  {
    forall i | 0 <= i < n && IsCapture(tokens[i]) ensures Name(tokens[i]) != Name(tokens[n]) {
      assert tokens[i] in tokens[..n];
      if Name(tokens[i]) == Name(tokens[n]) {
        SameNameSameToken(tokens[i], tokens[n]);
      }
    }
  }

  lemma {:induction false} TakesEachCapture(tokens: seq<string>, n: nat, at: seq<string>)
    requires n <= |tokens| <= |at| && Faultless(tokens)
    ensures HoldsCaptures(tokens, n, at, TokensAt(Captures(tokens, n), at))
    ensures TokensAt(Captures(tokens, n), at).Keys == CaptureNames(tokens, n)
  {
    if n > 0 {
      var before := Captures(tokens, n - 1);
      TakesEachCapture(tokens, n - 1, at);
      if IsCapture(tokens[n - 1]) {
        NoFaultAt(tokens, |tokens|, n - 1);
        TakeOneMore(before, Param(Name(tokens[n - 1]), n - 1), at);
        HoldsOneMore(tokens, n - 1, at, TokensAt(before, at));
      }
    }
  }

  lemma TakeOneMore(params: seq<Param>, last: Param, tokens: seq<string>)
    requires last.index < |tokens|
    ensures TokensAt(params + [last], tokens) == TokensAt(params, tokens)[last.name := tokens[last.index]]
  {
  }

  lemma WireOfAPattern(pattern: string)
    requires pattern != "" && Faultless(Split(pattern))
    ensures Split(Join(WireTokens(Split(pattern)))) == WireTokens(Split(pattern))
    ensures IsWire(Join(WireTokens(Split(pattern))))
  {
    var tokens := Split(pattern);
    SplitLeavesNoDot(pattern);
    forall t | t in WireTokens(tokens) ensures '.' !in t && (t == "*" || IsConcreteToken(t)) {
      var i :| 0 <= i < |tokens| && t == WireToken(tokens[i]);
      assert tokens[i] in tokens;
      NoFaultAt(tokens, |tokens|, i);
    }
    SplitInvertsJoin(WireTokens(tokens));
  }

  /** A subject reaches an accepted pattern iff it has as many tokens and those that stand for themselves are equal. */
  lemma SubjectsOfAPattern(pattern: string, subject: string)
    requires pattern != "" && Faultless(Split(pattern))
    ensures var tokens, s := Split(pattern), Split(subject);
      Matches(Join(WireTokens(tokens)), subject) <==>
      |s| == |tokens| && forall i :: 0 <= i < |tokens| && IsLiteralToken(tokens[i]) ==> s[i] == tokens[i]
  {
    var tokens, s := Split(pattern), Split(subject);
    WireOfAPattern(pattern);
    AcceptedPatterns(tokens);
    forall i: nat | i < |tokens|
      ensures if IsLiteralToken(tokens[i]) then WireTokens(tokens)[i] == tokens[i] != "*" else WireTokens(tokens)[i] == "*"
    {
      WireOfToken(tokens[i], "");
      if !IsLiteralToken(tokens[i]) {
        var name :| IsParameterName(name) && tokens[i] == "{" + name + "}";
        WireOfToken(tokens[i], name);
      }
    }
  }

  /**
   For an accepted pattern, filling in what was captured from a subject that
   matches its wire form gives that subject back, and nothing but the declared
   names is captured.
   */
  lemma FillInvertsExtract(pattern: string, subject: string)
    requires pattern != "" && Faultless(Split(pattern))
    requires Matches(Join(WireTokens(Split(pattern))), subject)
    ensures var values := ExtractParams(Captures(Split(pattern), |Split(pattern)|), subject);
      && Fill(pattern, values) == subject
      && values.Keys == CaptureNames(Split(pattern), |Split(pattern)|)
  {
    var tokens := Split(pattern);
    WireOfAPattern(pattern);
    var values := ExtractParams(Captures(tokens, |tokens|), subject);
    TakesEachCapture(tokens, |tokens|, Split(subject));
    var filled := seq(|tokens|, i requires 0 <= i < |tokens| =>
      if IsCapture(tokens[i]) && Name(tokens[i]) in values then values[Name(tokens[i])] else tokens[i]);
    forall i | 0 <= i < |tokens| ensures filled[i] == Split(subject)[i] {
      assert WireTokens(tokens)[i] == WireToken(tokens[i]);
      NoFaultAt(tokens, |tokens|, i);
    }
    assert filled == Split(subject);
    JoinInvertsSplit(subject);
  }
}
