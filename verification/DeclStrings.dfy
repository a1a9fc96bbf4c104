/**
 Strings and the declaration scan. Comment stripping leaves string literals as
 they are and the scan reads their text like any other; here its result is
 compared with that of a reader that passes strings over.
 */
module DeclStrings {
  import opened DeclOrder
  import opened Wrappers

  datatype Quoting = Outside | Inside | Escaped

  /** Where the tokens before `p` leave a reader that knows string literals and their escapes. */
  function QuotingAt(tokens: seq<Token>, p: nat): Quoting
    requires p <= |tokens|
  {
    if p == 0 then Outside
    else
      var t := tokens[p - 1];
      match QuotingAt(tokens, p - 1)
      case Outside => if t == Mark('"') then Inside else Outside
      case Inside => if t == Mark('"') then Outside else if t == Mark('\\') then Escaped else Inside
      case Escaped => Inside
  }

  /** The token belongs to a string literal, its quotes included. */
  predicate InString(tokens: seq<Token>, p: nat)
    requires p < |tokens|
  {
    QuotingAt(tokens, p) != Outside || tokens[p] == Mark('"')
  }

  /** The tokens with every string literal blanked out. */
  function Blanked(tokens: seq<Token>): (blanked: seq<Token>)
    ensures |blanked| == |tokens|
  {
    seq(|tokens|, p requires 0 <= p < |tokens| => if InString(tokens, p) then Mark('"') else tokens[p])
  }

  /** The inside of a string literal: no bare quote, and every backslash with the token it escapes. */
  predicate IsLiteralBody(body: seq<Token>) {
    body != [] ==>
      if body[0] == Mark('\\') then |body| > 1 && IsLiteralBody(body[2..])
      else body[0] != Mark('"') && IsLiteralBody(body[1..])
  }

  /** A string literal is in a string up to its closing quote, and what follows that is not. */
  lemma {:induction false} LiteralsClose(tokens: seq<Token>, p: nat, n: nat)
    requires p + n < |tokens| && tokens[p + n] == Mark('"')
    requires QuotingAt(tokens, p) == Inside && IsLiteralBody(tokens[p..p + n])
    ensures forall k :: p <= k <= p + n ==> InString(tokens, k)
    ensures QuotingAt(tokens, p + n) == Inside && QuotingAt(tokens, p + n + 1) == Outside
    decreases n
  {
    if n > 0 {
      var body := tokens[p..p + n];
      if body[0] == Mark('\\') {
        assert body[2..] == tokens[p + 2..p + n];
        assert QuotingAt(tokens, p + 1) == Escaped && QuotingAt(tokens, p + 2) == Inside;
        LiteralsClose(tokens, p + 2, n - 2);
      } else {
        assert body[1..] == tokens[p + 1..p + n];
        LiteralsClose(tokens, p + 1, n - 1);
      }
    }
  }

  /** Before a token outside all strings stands the same token either way, at most a closing quote. */
  lemma {:induction false} SamePreceding(tokens: seq<Token>, p: nat)
    requires p <= |tokens| && QuotingAt(tokens, p) == Outside
    ensures PrecedingToken(Blanked(tokens), p) == PrecedingToken(tokens, p)
    ensures var q := PrecedingToken(tokens, p);
      q.Some? ==> Blanked(tokens)[q.value] == tokens[q.value] && (tokens[q.value].Word? ==> !InString(tokens, q.value))
  {
    if p > 0 && tokens[p - 1].Space? {
      SamePreceding(tokens, p - 1);
    }
  }

  lemma {:induction false} SameDeclared(tokens: seq<Token>, keywords: seq<string>, p: nat)
    requires p < |tokens|
    ensures IsDeclared(Blanked(tokens), keywords, p) <==> !InString(tokens, p) && IsDeclared(tokens, keywords, p)
    decreases p
  {
    if !InString(tokens, p) {
      SamePreceding(tokens, p);
      var q := PrecedingToken(tokens, p);
      if q.Some? && IsKeyword(tokens[q.value], keywords) {
        SameDeclared(tokens, keywords, q.value);
      }
    }
  }

  /** How many declared names from `p` on stand in strings. */
  function NamesInStrings(tokens: seq<Token>, keywords: seq<string>, p: nat): nat
    requires p <= |tokens|
    decreases |tokens| - p
  {
    if p == |tokens| then 0
    else
      (if IsNameInString(tokens, keywords, p) then 1 else 0) + NamesInStrings(tokens, keywords, p + 1)
  }

  lemma {:induction false} StringsOnlyAdd(tokens: seq<Token>, keywords: seq<string>, p: nat)
    requires p <= |tokens|
    ensures |NamesFrom(tokens, keywords, p)|
         == |NamesFrom(Blanked(tokens), keywords, p)| + NamesInStrings(tokens, keywords, p)
    ensures NamesInStrings(tokens, keywords, p) == 0 ==>
              NamesFrom(tokens, keywords, p) == NamesFrom(Blanked(tokens), keywords, p)
    decreases |tokens| - p
  {
    if p < |tokens| {
      SameDeclared(tokens, keywords, p);
      StringsOnlyAdd(tokens, keywords, p + 1);
    }
  }

  predicate IsNameInString(tokens: seq<Token>, keywords: seq<string>, p: nat) {
    p < |tokens| && InString(tokens, p) && IsDeclared(tokens, keywords, p)
  }

  lemma {:induction false} NoneCountedIffNone(tokens: seq<Token>, keywords: seq<string>, p: nat)
    requires p <= |tokens|
    ensures NamesInStrings(tokens, keywords, p) == 0 <==> forall i: nat :: p <= i ==> !IsNameInString(tokens, keywords, i)
    decreases |tokens| - p
  {
    if p < |tokens| {
      NoneCountedIffNone(tokens, keywords, p + 1);
    }
  }

  /**
   The scan returns what a reader that passes strings over returns exactly when no
   string holds a word that is read as a name.
   */
  lemma ScanIgnoresStringsIff(tokens: seq<Token>, keywords: seq<string>)
    ensures Declared(tokens, keywords) == Declared(Blanked(tokens), keywords) <==>
            forall p: nat :: !IsNameInString(tokens, keywords, p)
  {
    DeclaredAreTheDeclaredPositions(tokens, keywords);
    DeclaredAreTheDeclaredPositions(Blanked(tokens), keywords);
    StringsOnlyAdd(tokens, keywords, 0);
    NoneCountedIffNone(tokens, keywords, 0);
  }

  /** A declared name in a string follows a keyword in a string. */
  lemma KeywordIsInTheString(tokens: seq<Token>, keywords: seq<string>, p: nat)
    requires IsNameInString(tokens, keywords, p)
    ensures var q := PrecedingToken(tokens, p); q.Some? && InString(tokens, q.value)
  {
    PrecedingIsQuotedToo(tokens, p);
  }

  lemma {:induction false} PrecedingIsQuotedToo(tokens: seq<Token>, p: nat)
    requires p <= |tokens| && QuotingAt(tokens, p) != Outside
    ensures var q := PrecedingToken(tokens, p); q.Some? ==> InString(tokens, q.value)
  {
    if p > 0 && tokens[p - 1].Space? {
      PrecedingIsQuotedToo(tokens, p - 1);
    }
  }

  /** The tokens of `"table X"`: the scan returns a name, the other reader none. */
  lemma AStringCanDeclare()
    ensures var tokens := [Mark('"'), Word("table"), Space, Word("X"), Mark('"')];
      Declared(tokens, KEYWORDS) == ["X"] && Declared(Blanked(tokens), KEYWORDS) == []
  {
    var tokens := [Mark('"'), Word("table"), Space, Word("X"), Mark('"')];
    var rest := tokens[1..];
    assert rest == [Word("table")] + Spaces(1) + [Word("X")] + [Mark('"')] by {
      assert Spaces(1) == [Space] + Spaces(0);
    }
    HeadDeclarationIsRead("table", 1, "X", [Mark('"')], KEYWORDS);
    assert Declared([Mark('"')], KEYWORDS) == [];
    assert QuotingAt(tokens, 1) == Inside && QuotingAt(tokens, 2) == Inside;
    assert QuotingAt(tokens, 3) == Inside && QuotingAt(tokens, 4) == Inside;
    assert forall p :: 0 <= p < |tokens| ==> Blanked(tokens)[p] == Mark('"');
    NoWordsNoNames(Blanked(tokens), KEYWORDS);
  }

  lemma {:induction false} NoWordsNoNames(tokens: seq<Token>, keywords: seq<string>)
    requires forall p :: 0 <= p < |tokens| ==> !tokens[p].Word?
    ensures Declared(tokens, keywords) == []
  {
    if tokens != [] {
      NoWordsNoNames(tokens[1..], keywords);
    }
  }
}
