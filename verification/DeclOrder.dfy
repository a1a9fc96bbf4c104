/** The order of the `table` and `enum` declarations of a schema text. */
module DeclOrder {
  import Comments
  import opened Characters
  import opened Sequences
  import opened Wrappers

  // ------------------------------------------------------------------------
  // The lexer
  // ------------------------------------------------------------------------

  datatype Token = Word(text: string) | Space | Mark(c: char)

  /** The end of the run of word characters at a position. */
  function WordEnd(text: string, i: nat): (end: nat)
    requires i <= |text|
    ensures i <= end <= |text|
    decreases |text| - i
  {
    if i < |text| && IsWordChar(text[i]) then WordEnd(text, i + 1) else i
  }

  function SpaceEnd(text: string, i: nat): (end: nat)
    requires i <= |text|
    ensures i <= end <= |text|
    decreases |text| - i
  {
    if i < |text| && IsAsciiSpace(text[i]) then SpaceEnd(text, i + 1) else i
  }

  /** The tokens from a position on: whole words, white space, and single marks. */
  function Lex(text: string, i: nat): seq<Token>
    requires i <= |text|
    decreases |text| - i
  {
    if i == |text| then []
    else if IsWordChar(text[i]) then
      var end := WordEnd(text, i + 1);
      [Word(text[i..end])] + Lex(text, end)
    else [if IsAsciiSpace(text[i]) then Space else Mark(text[i])] + Lex(text, i + 1)
  }

  const KEYWORDS := ["table", "enum"]

  predicate IsKeyword(t: Token, keywords: seq<string>) {
    t.Word? && t.text in keywords
  }

  function SkipSpaces(tokens: seq<Token>): (rest: seq<Token>)
    ensures |rest| <= |tokens|
    ensures rest == [] || !rest[0].Space?
  {
    if tokens != [] && tokens[0].Space? then SkipSpaces(tokens[1..]) else tokens
  }

  /** The words that follow a keyword across white space only, each read once. */
  function Declared(tokens: seq<Token>, keywords: seq<string>): seq<string>
    decreases |tokens|
  {
    if tokens == [] then []
    else if !IsKeyword(tokens[0], keywords) then Declared(tokens[1..], keywords)
    else
      var rest := SkipSpaces(tokens[1..]);
      if rest != [] && rest[0].Word? then [rest[0].text] + Declared(rest[1..], keywords)
      else Declared(rest, keywords)
  }

  lemma {:induction false} SkippedAreSpaces(tokens: seq<Token>)
    ensures var n := |tokens| - |SkipSpaces(tokens)|;
      SkipSpaces(tokens) == tokens[n..] && forall r :: 0 <= r < n ==> tokens[r].Space?
  {
    if tokens != [] && tokens[0].Space? {
      SkippedAreSpaces(tokens[1..]);
      var n := |tokens| - |SkipSpaces(tokens)|;
      assert tokens[1..][n - 1..] == tokens[n..];
      forall r | 0 <= r < n ensures tokens[r].Space? {
        assert r > 0 ==> tokens[r] == tokens[1..][r - 1];
      }
    }
  }

  /** Token `p` comes after the keyword at `q` with nothing but white space between them. */
  predicate FollowsKeyword(tokens: seq<Token>, keywords: seq<string>, q: nat, p: nat) {
    q < p < |tokens| && IsKeyword(tokens[q], keywords) && forall r :: q < r < p ==> tokens[r].Space?
  }

  /** Every name returned is a word that follows a keyword. */
  lemma {:induction false} NamesFollowKeywords(tokens: seq<Token>, keywords: seq<string>, name: string)
    requires name in Declared(tokens, keywords)
    ensures exists q: nat, p: nat :: FollowsKeyword(tokens, keywords, q, p) && tokens[p] == Word(name)
    decreases |tokens|
  {
    if !IsKeyword(tokens[0], keywords) {
      NamesFollowKeywords(tokens[1..], keywords, name);
      FollowsShifted(tokens, keywords, 1, name);
    } else {
      SkippedAreSpaces(tokens[1..]);
      var rest := SkipSpaces(tokens[1..]);
      var n := |tokens| - |rest|;
      assert rest == tokens[n..];
      forall r | 0 < r < n ensures tokens[r].Space? {
        assert tokens[r] == tokens[1..][r - 1];
      }
      if rest != [] && rest[0].Word? {
        if rest[0].text == name {
          assert FollowsKeyword(tokens, keywords, 0, n);
        } else {
          assert rest[1..] == tokens[n + 1..];
          NamesFollowKeywords(rest[1..], keywords, name);
          FollowsShifted(tokens, keywords, n + 1, name);
        }
      } else {
        NamesFollowKeywords(rest, keywords, name);
        FollowsShifted(tokens, keywords, n, name);
      }
    }
  }

  lemma FollowsShifted(tokens: seq<Token>, keywords: seq<string>, n: nat, name: string)
    requires n <= |tokens|
    requires exists q: nat, p: nat :: FollowsKeyword(tokens[n..], keywords, q, p) && tokens[n..][p] == Word(name)
    ensures exists q: nat, p: nat :: FollowsKeyword(tokens, keywords, q, p) && tokens[p] == Word(name)
  {
    var q: nat, p: nat :| FollowsKeyword(tokens[n..], keywords, q, p) && tokens[n..][p] == Word(name);
    forall r | q + n < r < p + n ensures tokens[r].Space? {
      assert tokens[r] == tokens[n..][r - n];
    }
    assert FollowsKeyword(tokens, keywords, q + n, p + n);
  }

  // ------------------------------------------------------------------------
  // The same by token positions
  // ------------------------------------------------------------------------

  /** The nearest token before `p` that is not white space. */
  function PrecedingToken(tokens: seq<Token>, p: nat): (q: Option<nat>)
    requires p <= |tokens|
    ensures q.Some? ==> q.value < p
  {
    if p == 0 then None else if tokens[p - 1].Space? then PrecedingToken(tokens, p - 1) else Some(p - 1)
  }

  /** Token `p` is a declared name: a word behind a keyword that is not itself read as a name. */
  predicate IsDeclared(tokens: seq<Token>, keywords: seq<string>, p: nat)
    requires p < |tokens|
  {
    && tokens[p].Word?
    && var q := PrecedingToken(tokens, p);
       q.Some? && IsKeyword(tokens[q.value], keywords) && !IsDeclared(tokens, keywords, q.value)
  }

  /** The declared names from position `p` on, in order. */
  function NamesFrom(tokens: seq<Token>, keywords: seq<string>, p: nat): seq<string>
    requires p <= |tokens|
    decreases |tokens| - p
  {
    if p == |tokens| then []
    else
      (if IsDeclared(tokens, keywords, p) then [tokens[p].text] else []) + NamesFrom(tokens, keywords, p + 1)
  }

  /** No keyword before `p` still waits for its name. */
  predicate NoneWaits(tokens: seq<Token>, keywords: seq<string>, p: nat)
    requires p <= |tokens|
  {
    var q := PrecedingToken(tokens, p);
    q.Some? && IsKeyword(tokens[q.value], keywords) ==> IsDeclared(tokens, keywords, q.value)
  }

  lemma {:induction false} SpacesArePassed(tokens: seq<Token>, keywords: seq<string>, p: nat, n: nat)
    requires p <= n <= |tokens| && forall r :: p <= r < n ==> tokens[r].Space?
    ensures PrecedingToken(tokens, n) == PrecedingToken(tokens, p)
    ensures NamesFrom(tokens, keywords, p) == NamesFrom(tokens, keywords, n)
    decreases n
  {
    if p < n {
      SpacesArePassed(tokens, keywords, p, n - 1);
    }
  }

  /**
   Exactly the declared names are returned: from the start of the text, every
   word behind a keyword that is not itself a name, each once and in order.
   */
  lemma DeclaredAreTheDeclaredPositions(tokens: seq<Token>, keywords: seq<string>)
    ensures Declared(tokens, keywords) == NamesFrom(tokens, keywords, 0)
  {
    assert tokens[0..] == tokens;
    DeclaredFrom(tokens, keywords, 0);
  }

  lemma {:induction false} DeclaredFrom(tokens: seq<Token>, keywords: seq<string>, p: nat)
    requires p <= |tokens| && NoneWaits(tokens, keywords, p)
    ensures Declared(tokens[p..], keywords) == NamesFrom(tokens, keywords, p)
    decreases |tokens| - p
  {
    if p < |tokens| {
      assert tokens[p..][0] == tokens[p] && tokens[p..][1..] == tokens[p + 1..];
      if IsKeyword(tokens[p], keywords) {
        DeclaredPastKeyword(tokens, keywords, p);
      } else {
        DeclaredFrom(tokens, keywords, p + 1);
      }
    }
  }

  lemma {:induction false} DeclaredPastKeyword(tokens: seq<Token>, keywords: seq<string>, p: nat)
    requires p < |tokens| && NoneWaits(tokens, keywords, p) && IsKeyword(tokens[p], keywords)
    ensures Declared(tokens[p..], keywords) == NamesFrom(tokens, keywords, p)
    decreases |tokens| - p, 0
  {
    DeclaredAtKeyword(tokens[p..], keywords);
    assert tokens[p..][1..] == tokens[p + 1..];
    var n := FollowingToken(tokens, p + 1);
    SpacesArePassed(tokens, keywords, p + 1, n);
    assert !IsDeclared(tokens, keywords, p);
    if n < |tokens| {
      assert tokens[n..][0] == tokens[n] && tokens[n..][1..] == tokens[n + 1..];
      DeclaredFrom(tokens, keywords, n + 1);
    }
  }

  /** Where the white space at `p` ends. */
  lemma FollowingToken(tokens: seq<Token>, p: nat) returns (n: nat)
    requires p <= |tokens|
    ensures p <= n <= |tokens| && (forall r :: p <= r < n ==> tokens[r].Space?)
    ensures SkipSpaces(tokens[p..]) == tokens[n..] && (n < |tokens| ==> !tokens[n].Space?)
  {
    SkippedAreSpaces(tokens[p..]);
    n := |tokens| - |SkipSpaces(tokens[p..])|;
    forall r | p <= r < n ensures tokens[r].Space? {
      assert tokens[r] == tokens[p..][r - p];
    }
    assert n < |tokens| ==> tokens[n..][0] == tokens[n];
  }

  /** A declaration at the head of the tokens is returned first, and the rest is read from behind its name. */
  lemma HeadDeclarationIsRead(keyword: string, spaces: nat, name: string, rest: seq<Token>, keywords: seq<string>)
    requires keyword in keywords
    ensures Declared([Word(keyword)] + Spaces(spaces) + [Word(name)] + rest, keywords) ==
            [name] + Declared(rest, keywords)
  {
    var tokens := [Word(keyword)] + Spaces(spaces) + [Word(name)] + rest;
    assert tokens[1..] == Spaces(spaces) + ([Word(name)] + rest);
    SkipsAllSpaces(spaces, [Word(name)] + rest);
    assert ([Word(name)] + rest)[1..] == rest;
  }

  function Spaces(n: nat): seq<Token> {
    if n == 0 then [] else [Space] + Spaces(n - 1)
  }

  lemma {:induction false} SkipsAllSpaces(n: nat, rest: seq<Token>)
    requires rest == [] || !rest[0].Space?
    ensures SkipSpaces(Spaces(n) + rest) == rest
  {
    if n == 0 {
      assert Spaces(0) + rest == rest;
    } else {
      assert (Spaces(n) + rest)[1..] == Spaces(n - 1) + rest;
      SkipsAllSpaces(n - 1, rest);
    }
  }

  // ------------------------------------------------------------------------
  // The scan
  // ------------------------------------------------------------------------

  predicate AtWordBoundary(text: string, i: nat, kw: string) {
    && i + |kw| <= |text|
    && text[i..i + |kw|] == kw
    && (i > 0 ==> !IsWordChar(text[i - 1]))
    && (i + |kw| < |text| ==> !IsWordChar(text[i + |kw|]))
  }

  lemma {:induction false} WordEndIs(text: string, i: nat, end: nat)
    requires i <= end <= |text|
    requires forall k :: i <= k < end ==> IsWordChar(text[k])
    requires end < |text| ==> !IsWordChar(text[end])
    ensures WordEnd(text, i) == end
    decreases end - i
  {
    if i < end {
      WordEndIs(text, i + 1, end);
    }
  }

  lemma {:induction false} WordEndStops(text: string, i: nat)
    requires i <= |text|
    ensures WordEnd(text, i) < |text| ==> !IsWordChar(text[WordEnd(text, i)])
    decreases |text| - i
  {
    if i < |text| && IsWordChar(text[i]) {
      WordEndStops(text, i + 1);
    }
  }

  lemma {:induction false} SpaceEndStops(text: string, i: nat)
    requires i <= |text|
    ensures SpaceEnd(text, i) < |text| ==> !IsAsciiSpace(text[SpaceEnd(text, i)])
    ensures SkipSpaces(Lex(text, i)) == Lex(text, SpaceEnd(text, i))
    decreases |text| - i
  {
    if i < |text| && IsAsciiSpace(text[i]) {
      SpaceEndStops(text, i + 1);
      assert Lex(text, i) == [Space] + Lex(text, i + 1);
      assert Lex(text, i)[1..] == Lex(text, i + 1);
    } else if i < |text| {
      assert !Lex(text, i)[0].Space?;
    }
  }

  /** Whether a word, if one is here, starts here. */
  predicate StartsHere(text: string, i: nat) {
    0 < i <= |text| ==> !IsWordChar(text[i - 1])
  }

  predicate IsWordText(kw: string) {
    kw != "" && forall k :: 0 <= k < |kw| ==> IsWordChar(kw[k])
  }

  /** The boundary test finds exactly the whole words. */
  lemma BoundaryMeansWholeWord(text: string, i: nat, kw: string)
    requires i < |text| && IsWordText(kw)
    ensures AtWordBoundary(text, i, kw) <==>
            StartsHere(text, i) && IsWordChar(text[i]) && text[i..WordEnd(text, i)] == kw
  {
    if AtWordBoundary(text, i, kw) {
      WholeWordAt(text, i, kw);
    } else if StartsHere(text, i) && text[i..WordEnd(text, i)] == kw {
      WholeWordIsThere(text, i, kw, WordEnd(text, i));
    }
  }

  lemma WholeWordIsThere(text: string, i: nat, kw: string, end: nat)
    requires i < |text| && StartsHere(text, i) && end == WordEnd(text, i) && text[i..end] == kw
    ensures AtWordBoundary(text, i, kw)
  {
    WordEndStops(text, i);
    assert i + |kw| == end;
  }

  lemma WholeWordAt(text: string, i: nat, kw: string)
    requires AtWordBoundary(text, i, kw) && IsWordText(kw)
    ensures IsWordChar(text[i]) && WordEnd(text, i) == i + |kw|
  {
    forall k | i <= k < i + |kw| ensures IsWordChar(text[k]) {
      assert text[k] == text[i..i + |kw|][k - i];
    }
    WordEndIs(text, i, i + |kw|);
  }

  /** Where the lexer's next token starts for a scan that has come to `i`. */
  function Resume(text: string, i: nat): (p: nat)
    ensures p <= |text|
  {
    if i > |text| then |text| else if StartsHere(text, i) then i else WordEnd(text, i)
  }

  function Rest(text: string, i: nat, keywords: seq<string>): seq<string> {
    Declared(Lex(text, Resume(text, i)), keywords)
  }

  ghost predicate AreWords(keywords: seq<string>) {
    forall kw :: kw in keywords ==> IsWordText(kw)
  }

  lemma KeywordsAreWords()
    ensures AreWords(KEYWORDS)
  {
  }

  lemma WordFirst(text: string, i: nat)
    requires i < |text| && IsWordChar(text[i])
    ensures var end := WordEnd(text, i);
      i < end && Lex(text, i) != [] && Lex(text, i)[0] == Word(text[i..end]) && Lex(text, i)[1..] == Lex(text, end)
  {
  }

  lemma OtherFirst(text: string, i: nat)
    requires i < |text| && !IsWordChar(text[i])
    ensures Lex(text, i) != [] && !Lex(text, i)[0].Word? && Lex(text, i)[1..] == Lex(text, i + 1)
  {
  }

  /** Passing a character that starts no keyword passes no declaration. */
  lemma PassingKeepsTheRest(text: string, i: nat, keywords: seq<string>)
    requires i < |text| && AreWords(keywords) && forall kw :: kw in keywords ==> !AtWordBoundary(text, i, kw)
    ensures Rest(text, i, keywords) == Rest(text, i + 1, keywords)
  {
    if IsWordChar(text[i]) {
      assert WordEnd(text, i) == WordEnd(text, i + 1);
      if StartsHere(text, i) {
        WordFirst(text, i);
        var word := text[i..WordEnd(text, i)];
        if word in keywords {
          BoundaryMeansWholeWord(text, i, word);
        }
      }
    } else {
      OtherFirst(text, i);
    }
  }

  lemma NothingStartsOffAWord(text: string, i: nat, kw: string)
    requires i < |text| && !IsWordChar(text[i]) && IsWordText(kw)
    ensures !AtWordBoundary(text, i, kw)
  {
  }

  /** What a scan that comes to a keyword is left with, once past it. */
  function AfterKeyword(tokens: seq<Token>, keywords: seq<string>): seq<string> {
    if tokens != [] && tokens[0].Word? then [tokens[0].text] + Declared(tokens[1..], keywords)
    else Declared(tokens, keywords)
  }

  lemma LexAtKeyword(text: string, i: nat, kw: string)
    requires IsWordText(kw) && AtWordBoundary(text, i, kw)
    ensures var tokens := Lex(text, i); tokens != [] && tokens[0] == Word(kw) && tokens[1..] == Lex(text, i + |kw|)
    ensures Resume(text, i) == i
  {
    WholeWordAt(text, i, kw);
    WordFirst(text, i);
  }

  lemma KeywordPassed(text: string, i: nat, kw: string, keywords: seq<string>)
    requires kw in keywords && IsWordText(kw) && AtWordBoundary(text, i, kw)
    ensures Rest(text, i, keywords) == AfterKeyword(Lex(text, SpaceEnd(text, i + |kw|)), keywords)
  {
    LexAtKeyword(text, i, kw);
    DeclaredAtKeyword(Lex(text, i), keywords);
    SpaceEndStops(text, i + |kw|);
  }

  lemma DeclaredAtKeyword(tokens: seq<Token>, keywords: seq<string>)
    requires tokens != [] && IsKeyword(tokens[0], keywords)
    ensures Declared(tokens, keywords) == AfterKeyword(SkipSpaces(tokens[1..]), keywords)
  {
  }

  /** Reading a keyword and what follows it reads one declaration. */
  lemma KeywordDeclares(text: string, i: nat, kw: string, keywords: seq<string>)
    requires kw in keywords && IsWordText(kw) && AtWordBoundary(text, i, kw)
    ensures var start := SpaceEnd(text, i + |kw|); var end := WordEnd(text, start);
      Rest(text, i, keywords) == (if end > start then [text[start..end]] else []) + Rest(text, end, keywords)
  {
    KeywordPassed(text, i, kw, keywords);
    var start := SpaceEnd(text, i + |kw|);
    var end := WordEnd(text, start);
    WordEndStops(text, start);
    assert Resume(text, end) == end;
    if end > start {
      WordFirst(text, start);
    } else if start < |text| {
      OtherFirst(text, start);
    }
  }

  /** What is read at a keyword: past it, white space, then the name if there is one. */
  method ReadDeclaration(bytes: string, i: nat, kw: string, keywords: seq<string>) returns (names: seq<string>, j: nat)
    requires kw in keywords && IsWordText(kw) && AtWordBoundary(bytes, i, kw)
    ensures i < j <= |bytes| && Rest(bytes, i, keywords) == names + Rest(bytes, j, keywords)
    ensures j < |bytes| ==> !IsWordChar(bytes[j])
  {
    j := i + |kw|;
    while j < |bytes| && IsAsciiSpace(bytes[j])
      invariant i < j <= |bytes| && SpaceEnd(bytes, i + |kw|) == SpaceEnd(bytes, j)
    {
      j := j + 1;
    }
    var start := j;
    while j < |bytes| && IsWordChar(bytes[j])
      invariant start <= j <= |bytes| && WordEnd(bytes, start) == WordEnd(bytes, j)
    {
      j := j + 1;
    }
    names := if j > start then [bytes[start..j]] else [];
    KeywordDeclares(bytes, i, kw, keywords);
  }

  /** None of the first `n` keywords is here. */
  predicate NoneAt(text: string, i: nat, keywords: seq<string>, n: nat)
    requires n <= |keywords|
  {
    n > 0 ==> !AtWordBoundary(text, i, keywords[n - 1]) && NoneAt(text, i, keywords, n - 1)
  }

  lemma {:induction false} NoneAtMeans(text: string, i: nat, keywords: seq<string>, n: nat, kw: string)
    requires n <= |keywords| && NoneAt(text, i, keywords, n) && kw in keywords[..n]
    ensures !AtWordBoundary(text, i, kw)
  {
    if kw != keywords[n - 1] {
      NoneAtMeans(text, i, keywords, n - 1, kw);
    }
  }

  /** The loop over the keywords at a position: past what they read, no keyword is left. */
  method TryKeywords(bytes: string, start: nat, keywords: seq<string>) returns (names: seq<string>, i: nat)
    requires start < |bytes| && AreWords(keywords)
    ensures start <= i <= |bytes| && Rest(bytes, start, keywords) == names + Rest(bytes, i, keywords)
    ensures i < |bytes| ==> forall kw :: kw in keywords ==> !AtWordBoundary(bytes, i, kw)
  {
    names, i := [], start;
    for k := 0 to |keywords|
      invariant start <= i <= |bytes| && Rest(bytes, start, keywords) == names + Rest(bytes, i, keywords)
      invariant i == start ==> NoneAt(bytes, i, keywords, k)
      invariant start < i < |bytes| ==> !IsWordChar(bytes[i])
    {
      if AtWordBoundary(bytes, i, keywords[k]) {
        var read, j := ReadDeclaration(bytes, i, keywords[k], keywords);
        Regroup(names, read, Rest(bytes, j, keywords));
        names, i := names + read, j;
      }
    }
    if i < |bytes| {
      NoKeywordHere(bytes, i, i > start, keywords);
    }
  }

  /** The scan over the text without its comments. */
  method Scan(bytes: string, keywords: seq<string>) returns (out: seq<string>)
    requires AreWords(keywords)
    ensures out == Declared(Lex(bytes, 0), keywords)
  {
    out := [];
    var i := 0;
    while i < |bytes|
      invariant Rest(bytes, 0, keywords) == out + Rest(bytes, i, keywords)
      decreases |bytes| - i
    {
      var names, j := TryKeywords(bytes, i, keywords);
      Regroup(out, names, Rest(bytes, j, keywords));
      if j < |bytes| {
        PassingKeepsTheRest(bytes, j, keywords);
      }
      out, i := out + names, j + 1;
    }
  }

  lemma NoKeywordHere(text: string, i: nat, moved: bool, keywords: seq<string>)
    requires i < |text| && AreWords(keywords)
    requires if moved then !IsWordChar(text[i])
             else NoneAt(text, i, keywords, |keywords|)
    ensures forall kw :: kw in keywords ==> !AtWordBoundary(text, i, kw)
  {
    forall kw | kw in keywords ensures !AtWordBoundary(text, i, kw) {
      if moved {
        NothingStartsOffAWord(text, i, kw);
      } else {
        assert keywords[..|keywords|] == keywords;
        NoneAtMeans(text, i, keywords, |keywords|, kw);
      }
    }
  }

  /** In order, exactly the declared names of the text without its comments. */
  method SourceDeclOrder(text: string) returns (out: seq<string>)
    ensures out == Declared(Lex(Comments.Keep(text, Comments.Code), 0), KEYWORDS)
  {
    var cleaned := Comments.StripComments(text);
    KeywordsAreWords();
    out := Scan(cleaned, KEYWORDS);
  }
}
