/**
 Stripping the comments of a schema text, before its declarations are looked
 for. A text is its bytes, one character each; the code compares them with ASCII
 characters only.
 */
module Comments {
  import opened Sequences

  datatype Mode = Code | Line | Block | Str

  predicate PairAt(text: string, i: nat, first: char, second: char) {
    i + 1 < |text| && text[i] == first && text[i + 1] == second
  }

  /** What a machine with four modes keeps of a text from a position on. */
  function KeepFrom(text: string, i: nat, mode: Mode): string
    decreases |text| - i
  {
    if i >= |text| then ""
    else
      match mode
      case Code =>
        if PairAt(text, i, '/', '/') then KeepFrom(text, i + 2, Line)
        else if PairAt(text, i, '/', '*') then KeepFrom(text, i + 2, Block)
        else [text[i]] + KeepFrom(text, i + 1, if text[i] == '"' then Str else Code)
      case Line =>
        if text[i] == '\n' then "\n" + KeepFrom(text, i + 1, Code) else KeepFrom(text, i + 1, Line)
      case Block =>
        if i + 1 == |text| then ""
        else if PairAt(text, i, '*', '/') then KeepFrom(text, i + 2, Code)
        else if text[i] == '\n' then "\n" + KeepFrom(text, i + 1, Block)
        else KeepFrom(text, i + 1, Block)
      case Str =>
        if text[i] == '"' then "\"" + KeepFrom(text, i + 1, Code)
        else if text[i] == '\\' && i + 1 < |text| then [text[i], text[i + 1]] + KeepFrom(text, i + 2, Str)
        else [text[i]] + KeepFrom(text, i + 1, Str)
  }

  function Keep(text: string, mode: Mode): string {
    KeepFrom(text, 0, mode)
  }

  /** Whether the machine takes two characters at once, and the mode it is in after them. */
  predicate Pairs(text: string, i: nat, mode: Mode) {
    match mode
    case Code => PairAt(text, i, '/', '/') || PairAt(text, i, '/', '*')
    case Line => false
    case Block => PairAt(text, i, '*', '/')
    case Str => i + 1 < |text| && text[i] == '\\'
  }

  function AfterPair(text: string, i: nat, mode: Mode): Mode {
    match mode
    case Code => if PairAt(text, i, '/', '/') then Line else Block
    case Line => Line
    case Block => Code
    case Str => Str
  }

  /** The mode after a character taken alone. */
  function Next(c: char, mode: Mode): Mode {
    match mode
    case Code => if c == '"' then Str else Code
    case Line => if c == '\n' then Code else Line
    case Block => Block
    case Str => if c == '"' then Code else Str
  }

  /** The mode the machine is in when the text ends. */
  function EndMode(text: string, mode: Mode): Mode
    decreases |text|
  {
    if text == "" then mode
    else if Pairs(text, 0, mode) then EndMode(text[2..], AfterPair(text, 0, mode))
    else EndMode(text[1..], Next(text[0], mode))
  }

  /** What is kept of a character taken alone, unless an open block comment ends with it. */
  function Kept(c: char, mode: Mode): string {
    if (mode == Line || mode == Block) && c != '\n' then "" else [c]
  }

  function KeptPair(pair: string, mode: Mode): string {
    if mode == Str then pair else ""
  }

  /** Only what follows a position matters. */
  lemma {:induction false} KeepFromIsKeep(text: string, i: nat, mode: Mode)
    requires i <= |text|
    ensures KeepFrom(text, i, mode) == Keep(text[i..], mode)
    decreases |text| - i
  {
    if i == 0 {
      assert text[0..] == text;
    } else if i < |text| {
      var rest := text[i..];
      if Pairs(text, i, mode) {
        assert rest[2..] == text[i + 2..] && rest[0] == text[i] && rest[1] == text[i + 1];
        KeepFromIsKeep(text, i + 2, AfterPair(text, i, mode));
        KeepFromIsKeep(rest, 2, AfterPair(text, i, mode));
      } else {
        assert rest[1..] == text[i + 1..] && rest[0] == text[i] && (|rest| > 1 ==> rest[1] == text[i + 1]);
        KeepFromIsKeep(text, i + 1, Next(text[i], mode));
        KeepFromIsKeep(rest, 1, Next(text[i], mode));
      }
    }
  }

  lemma TakenAsPair(text: string, mode: Mode)
    requires Pairs(text, 0, mode)
    ensures Keep(text, mode) == KeptPair(text[..2], mode) + Keep(text[2..], AfterPair(text, 0, mode))
    ensures EndMode(text, mode) == EndMode(text[2..], AfterPair(text, 0, mode))
    ensures text == text[..2] + text[2..] && (mode != Str ==> Newlines(text[..2]) == 0)
  {
    KeepFromIsKeep(text, 2, AfterPair(text, 0, mode));
    assert text[..2] == [text[0], text[1]];
    assert text[..2][1..] == [text[1]] && [text[1]][1..] == "";
    assert Newlines([text[1]]) == if text[1] == '\n' then 1 else 0;
  }

  lemma TakenAlone(text: string, mode: Mode)
    requires text != "" && !Pairs(text, 0, mode) && (mode == Block ==> |text| > 1)
    ensures Keep(text, mode) == Kept(text[0], mode) + Keep(text[1..], Next(text[0], mode))
    ensures EndMode(text, mode) == EndMode(text[1..], Next(text[0], mode))
  {
    KeepFromIsKeep(text, 1, Next(text[0], mode));
  }

  method StripComments(text: string) returns (out: string)
    ensures out == Keep(text, Code)
  {
    out := "";
    var i := 0;
    while i < |text|
      invariant i <= |text| && out + KeepFrom(text, i, Code) == KeepFrom(text, 0, Code)
    {
      if i + 1 < |text| && text[i] == '/' && text[i + 1] == '/' {
        i := SkipLine(text, i);
        continue;
      }
      ghost var before := out;
      var kept;
      if i + 1 < |text| && text[i] == '/' && text[i + 1] == '*' {
        kept, i := SkipBlock(text, i);
      } else if text[i] == '"' {
        kept, i := TakeString(text, i);
      } else {
        kept, i := [text[i]], i + 1;
      }
      out := out + kept;
      Regroup(before, kept, KeepFrom(text, i, Code));
    }
  }

  /** The loop over a line comment. */
  method SkipLine(text: string, start: nat) returns (i: nat)
    requires PairAt(text, start, '/', '/')
    ensures start < i <= |text| && KeepFrom(text, start, Code) == KeepFrom(text, i, Code)
  {
    i := start + 2;
    while i < |text| && text[i] != '\n'
      invariant start + 2 <= i <= |text| && KeepFrom(text, start, Code) == KeepFrom(text, i, Line)
    {
      i := i + 1;
    }
  }

  /** The loop over a block comment, which keeps its line breaks. */
  method SkipBlock(text: string, start: nat) returns (breaks: string, i: nat)
    requires PairAt(text, start, '/', '*')
    ensures start < i <= |text| && KeepFrom(text, start, Code) == breaks + KeepFrom(text, i, Code)
  {
    breaks, i := "", start + 2;
    while i + 1 < |text| && !(text[i] == '*' && text[i + 1] == '/')
      invariant start + 2 <= i <= |text| && KeepFrom(text, start, Code) == breaks + KeepFrom(text, i, Block)
    {
      if text[i] == '\n' {
        Regroup(breaks, "\n", KeepFrom(text, i + 1, Block));
        breaks := breaks + "\n";
      }
      i := i + 1;
    }
    if i + 1 < |text| {
      i := i + 2;
    } else {
      i := |text|;
    }
  }

  /** The loop over a string literal, escapes included. */
  method TakeString(text: string, start: nat) returns (quoted: string, i: nat)
    requires start < |text| && text[start] == '"'
    ensures start < i <= |text| && KeepFrom(text, start, Code) == quoted + KeepFrom(text, i, Code)
  {
    quoted, i := "\"", start + 1;
    while i < |text| && text[i] != '"'
      invariant start < i <= |text| && KeepFrom(text, start, Code) == quoted + KeepFrom(text, i, Str)
    {
      var kept := if text[i] == '\\' && i + 1 < |text| then [text[i], text[i + 1]] else [text[i]];
      Regroup(quoted, kept, KeepFrom(text, i + |kept|, Str));
      quoted := quoted + kept;
      i := i + |kept|;
    }
    if i < |text| {
      Regroup(quoted, "\"", KeepFrom(text, i + 1, Code));
      quoted := quoted + "\"";
      i := i + 1;
    }
  }

  function Newlines(s: string): nat {
    if s == "" then 0 else (if s[0] == '\n' then 1 else 0) + Newlines(s[1..])
  }

  lemma {:induction false} NewlinesAdd(a: string, b: string)
    ensures Newlines(a + b) == Newlines(a) + Newlines(b)
  {
    if a == "" {
      assert a + b == b;
    } else {
      assert (a + b)[1..] == a[1..] + b;
      NewlinesAdd(a[1..], b);
    }
  }

  /** A block comment left open at the end of the text swallows the text's last character. */
  predicate LosesItsLastNewline(text: string, mode: Mode) {
    text != "" && text[|text| - 1] == '\n' && EndMode(text, mode) == Block
  }

  lemma PairEndsNothing(text: string, mode: Mode)
    requires Pairs(text, 0, mode)
    ensures LosesItsLastNewline(text, mode) == LosesItsLastNewline(text[2..], AfterPair(text, 0, mode))
  {
    TakenAsPair(text, mode);
    if text[2..] != "" {
      assert text[|text| - 1] == text[2..][|text| - 3];
    }
  }

  /** Stripping keeps the number of lines, except that an open block comment loses a newline the text ends with. */
  lemma {:induction false} NewlinesAreKept(text: string, mode: Mode)
    ensures Newlines(Keep(text, mode)) == Newlines(text) - if LosesItsLastNewline(text, mode) then 1 else 0
    decreases |text|
  {
    if text == "" {
    } else if Pairs(text, 0, mode) {
      var next := AfterPair(text, 0, mode);
      TakenAsPair(text, mode);
      NewlinesAreKept(text[2..], next);
      NewlinesAdd(text[..2], text[2..]);
      NewlinesAdd(KeptPair(text[..2], mode), Keep(text[2..], next));
      PairEndsNothing(text, mode);
    } else if mode == Block && |text| == 1 {
      assert EndMode(text, Block) == EndMode("", Block) == Block;
    } else {
      var next := Next(text[0], mode);
      TakenAlone(text, mode);
      NewlinesAreKept(text[1..], next);
      NewlinesAdd(Kept(text[0], mode), Keep(text[1..], next));
    }
  }

  /** The mode in which stripped text is read again: every comment is gone. */
  function Stripped(mode: Mode): Mode {
    if mode == Str then Str else Code
  }

  /** Stripping leaves no comment: stripping again changes nothing. */
  lemma {:induction false} StrippingTwiceIsStrippingOnce(text: string, mode: Mode)
    ensures Keep(Keep(text, mode), Stripped(mode)) == Keep(text, mode)
    decreases |text|
  {
    if text == "" || (mode == Block && |text| == 1) {
    } else if Pairs(text, 0, mode) {
      TakenAsPair(text, mode);
      StrippingTwiceIsStrippingOnce(text[2..], AfterPair(text, 0, mode));
      if mode == Str {
        PairIsKeptAgain(text[..2], Keep(text[2..], Str));
      } else {
        assert Keep(text, mode) == Keep(text[2..], AfterPair(text, 0, mode));
      }
    } else {
      TakenAlone(text, mode);
      StrippingTwiceIsStrippingOnce(text[1..], Next(text[0], mode));
      if Kept(text[0], mode) != "" {
        if mode == Code && text[0] == '/' {
          FirstIsKept(text[1..]);
        }
        KeptAgain(text[0], Keep(text[1..], Next(text[0], mode)), mode);
      } else {
        assert Keep(text, mode) == Keep(text[1..], Next(text[0], mode));
      }
    }
  }

  lemma PairIsKeptAgain(pair: string, rest: string)
    requires |pair| == 2 && pair[0] == '\\' && Keep(rest, Str) == rest
    ensures Keep(pair + rest, Str) == pair + rest
  {
    var out := pair + rest;
    TakenAsPair(out, Str);
    assert out[..2] == pair && out[2..] == rest;
  }

  lemma KeptAgain(c: char, rest: string, mode: Mode)
    requires Kept(c, mode) == [c] && !Pairs([c] + rest, 0, Stripped(mode))
    requires Keep(rest, Stripped(Next(c, mode))) == rest
    ensures Keep([c] + rest, Stripped(mode)) == [c] + rest
  {
    var out := [c] + rest;
    TakenAlone(out, Stripped(mode));
    assert out[1..] == rest;
  }

  lemma FirstIsKept(text: string)
    requires text != "" ==> text[0] != '/'
    ensures Keep(text, Code) == "" <==> text == ""
    ensures text != "" ==> Keep(text, Code)[0] == text[0]
  {
  }

  /** A closed block comment leaves its line breaks and nothing else. */
  lemma {:induction false} BlockCommentsLeaveBreaks(body: string, rest: string)
    requires forall k :: 0 <= k < |body| ==> !PairAt(body, k, '*', '/')
    ensures Keep(body + "*/" + rest, Block) == Breaks(Newlines(body)) + Keep(rest, Code)
  {
    var text := body + "*/" + rest;
    if body == "" {
      assert text == "*/" + rest && text[2..] == rest;
      TakenAsPair(text, Block);
    } else {
      assert text[1..] == body[1..] + "*/" + rest;
      forall k | 0 <= k < |body[1..]| ensures !PairAt(body[1..], k, '*', '/') {
        assert !PairAt(body, k + 1, '*', '/');
      }
      BlockCommentsLeaveBreaks(body[1..], rest);
      assert text[0] == body[0] && text[1] == (if |body| > 1 then body[1] else '*');
      assert !PairAt(body, 0, '*', '/');
      TakenAlone(text, Block);
    }
  }

  function Breaks(n: nat): string {
    if n == 0 then "" else "\n" + Breaks(n - 1)
  }

  // ------------------------------------------------------------------------
  // Texts by their parts
  // ------------------------------------------------------------------------

  /** `Slash` is a slash that begins no comment, with the character behind it. */
  datatype Part = Plain(c: char) | Slash(c: char) | Literal(body: string) | LineComment(body: string) | BlockComment(body: string)

  /** The inside of a string literal: no bare quote, and every backslash with the character it escapes. */
  predicate IsLiteralBody(body: string) {
    body != "" ==>
      if body[0] == '\\' then |body| > 1 && IsLiteralBody(body[2..])
      else body[0] != '"' && IsLiteralBody(body[1..])
  }

  predicate IsPart(p: Part) {
    match p
    case Plain(c) => c != '/' && c != '"'
    case Slash(c) => c != '/' && c != '*' && c != '"'
    case Literal(body) => IsLiteralBody(body)
    case LineComment(body) => '\n' !in body
    case BlockComment(body) => forall k :: 0 <= k < |body| ==> !PairAt(body, k, '*', '/')
  }

  function Written(p: Part): string {
    match p
    case Plain(c) => [c]
    case Slash(c) => "/" + [c]
    case Literal(body) => "\"" + body + "\""
    case LineComment(body) => "//" + body + "\n"
    case BlockComment(body) => "/*" + body + "*/"
  }

  /** Comments go but for their line breaks; everything else stays. */
  function Remaining(p: Part): string {
    match p
    case LineComment(_) => "\n"
    case BlockComment(body) => Breaks(Newlines(body))
    case _ => Written(p)
  }

  function AllWritten(parts: seq<Part>): string {
    if parts == [] then "" else Written(parts[0]) + AllWritten(parts[1..])
  }

  function AllRemaining(parts: seq<Part>): string {
    if parts == [] then "" else Remaining(parts[0]) + AllRemaining(parts[1..])
  }

  /** A text written as any parts in a row is stripped to what remains of each. */
  lemma {:induction false} PartsAreStripped(parts: seq<Part>)
    requires forall i :: 0 <= i < |parts| ==> IsPart(parts[i])
    ensures Keep(AllWritten(parts), Code) == AllRemaining(parts)
  {
    if parts != [] {
      PartsAreStripped(parts[1..]);
      PartIsStripped(parts[0], AllWritten(parts[1..]));
    }
  }

  lemma PartIsStripped(p: Part, rest: string)
    requires IsPart(p)
    ensures Keep(Written(p) + rest, Code) == Remaining(p) + Keep(rest, Code)
  {
    match p {
      case Plain(c) => AloneThen(c, rest, Code);
      case Slash(c) => SlashIsStripped(c, rest);
      case Literal(body) => LiteralIsStripped(body, rest);
      case LineComment(body) => CommentIsStripped("//", body, "\n", rest);
      case BlockComment(body) => CommentIsStripped("/*", body, "*/", rest);
    }
  }

  lemma SlashIsStripped(c: char, rest: string)
    requires IsPart(Slash(c))
    ensures Keep("/" + [c] + rest, Code) == "/" + [c] + Keep(rest, Code)
  {
    assert "/" + [c] + rest == ['/'] + ([c] + rest);
    AloneThen('/', [c] + rest, Code);
    AloneThen(c, rest, Code);
    assert "/" + [c] + Keep(rest, Code) == ['/'] + ([c] + Keep(rest, Code));
  }

  lemma LiteralIsStripped(body: string, rest: string)
    requires IsLiteralBody(body)
    ensures Keep("\"" + body + "\"" + rest, Code) == "\"" + body + "\"" + Keep(rest, Code)
  {
    var inner := body + "\"" + rest;
    assert "\"" + body + "\"" + rest == ['"'] + inner;
    AloneThen('"', inner, Code);
    LiteralsAreKept(body, rest);
    assert "\"" + body + "\"" + Keep(rest, Code) == ['"'] + (body + "\"" + Keep(rest, Code));
  }

  lemma CommentIsStripped(start: string, body: string, end: string, rest: string)
    requires (start == "//" && end == "\n" && IsPart(LineComment(body))) || (start == "/*" && end == "*/" && IsPart(BlockComment(body)))
    ensures Keep(start + body + end + rest, Code)
         == (if start == "//" then "\n" else Breaks(Newlines(body))) + Keep(rest, Code)
  {
    var text, inner := start + body + end + rest, body + end + rest;
    assert text[2..] == inner && text[..2] == start;
    TakenAsPair(text, Code);
    if start == "//" {
      LineCommentsGo(body, rest);
    } else {
      BlockCommentsLeaveBreaks(body, rest);
    }
  }

  lemma AloneThen(c: char, rest: string, mode: Mode)
    requires !Pairs([c] + rest, 0, mode) && mode != Block
    ensures Keep([c] + rest, mode) == Kept(c, mode) + Keep(rest, Next(c, mode))
  {
    assert ([c] + rest)[1..] == rest;
    TakenAlone([c] + rest, mode);
  }

  lemma {:induction false} LineCommentsGo(body: string, rest: string)
    requires '\n' !in body
    ensures Keep(body + "\n" + rest, Line) == "\n" + Keep(rest, Code)
  {
    if body == "" {
      assert body + "\n" + rest == ['\n'] + rest;
      AloneThen('\n', rest, Line);
    } else {
      assert body + "\n" + rest == [body[0]] + (body[1..] + "\n" + rest);
      AloneThen(body[0], body[1..] + "\n" + rest, Line);
      LineCommentsGo(body[1..], rest);
    }
  }

  lemma {:induction false} LiteralsAreKept(body: string, rest: string)
    requires IsLiteralBody(body)
    ensures Keep(body + "\"" + rest, Str) == body + "\"" + Keep(rest, Code)
  {
    var text := body + "\"" + rest;
    if body == "" {
      assert text == ['"'] + rest;
      AloneThen('"', rest, Str);
    } else if body[0] == '\\' {
      assert text[..2] == body[..2] && text[2..] == body[2..] + "\"" + rest;
      TakenAsPair(text, Str);
      LiteralsAreKept(body[2..], rest);
      assert body == body[..2] + body[2..];
    } else {
      assert text == [body[0]] + (body[1..] + "\"" + rest);
      AloneThen(body[0], body[1..] + "\"" + rest, Str);
      LiteralsAreKept(body[1..], rest);
      assert body == [body[0]] + body[1..];
    }
  }
}
