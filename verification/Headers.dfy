/**
 Header maps and their passage over NATS. A map that holds several values under
 a name is kept as its list of entries; a value with bytes outside ASCII as a
 string with characters outside it. A header's name is one of the five the
 framework sets or another one; on the wire it is text.
 */
module Headers {
  import opened Characters
  import opened Wrappers

  datatype Name = ContentType | RequestId | ErrorCode | ErrorMessage | ErrorStatus | Other(text: string)

  datatype Header = Header(name: Name, value: string)

  datatype Entry = Entry(name: string, value: string)

  type HeaderMap = seq<Header>

  function ValuesOf(headers: HeaderMap, name: Name): seq<string> {
    if headers == [] then []
    else if headers[0].name == name then [headers[0].value] + ValuesOf(headers[1..], name)
    else ValuesOf(headers[1..], name)
  }

  function Remove(headers: HeaderMap, name: Name): HeaderMap {
    if headers == [] then []
    else if headers[0].name == name then Remove(headers[1..], name)
    else [headers[0]] + Remove(headers[1..], name)
  }

  function Insert(headers: HeaderMap, name: Name, value: string): HeaderMap {
    Remove(headers, name) + [Header(name, value)]
  }

  lemma {:induction false} ValuesOfAppended(a: HeaderMap, b: HeaderMap, name: Name)
    ensures ValuesOf(a + b, name) == ValuesOf(a, name) + ValuesOf(b, name)
  {
    if a == [] {
      assert a + b == b;
    } else {
      assert (a + b)[1..] == a[1..] + b;
      ValuesOfAppended(a[1..], b, name);
    }
  }

  lemma {:induction false} ValuesOfRemoved(headers: HeaderMap, gone: Name, name: Name)
    ensures ValuesOf(Remove(headers, gone), name) == if name == gone then [] else ValuesOf(headers, name)
  {
    if headers != [] {
      var rest := Remove(headers[1..], gone);
      ValuesOfRemoved(headers[1..], gone, name);
      assert ([headers[0]] + rest)[1..] == rest;
    }
  }

  lemma ValuesOfInserted(headers: HeaderMap, put: Name, value: string, name: Name)
    ensures ValuesOf(Insert(headers, put, value), name) == if name == put then [value] else ValuesOf(headers, name)
  {
    ValuesOfRemoved(headers, put, name);
    ValuesOfAppended(Remove(headers, put), [Header(put, value)], name);
  }

  // ------------------------------------------------------------------------
  // What a name and a value may be
  // ------------------------------------------------------------------------

  function LowerCase(c: char): char {
    if 'A' <= c <= 'Z' then (c as int + 32) as char else c
  }

  /** The characters of a stored name: those of an HTTP token, in lower case. */
  predicate IsNameChar(c: char) {
    'a' <= c <= 'z' || '0' <= c <= '9' || c in "!#$%&'*+-.^_`|~"
  }

  predicate IsToken(text: string) {
    text != "" && forall i :: 0 <= i < |text| ==> IsNameChar(text[i])
  }

  function Lowered(text: string): string {
    seq(|text|, i requires 0 <= i < |text| => LowerCase(text[i]))
  }

  function Text(name: Name): string {
    match name
    case ContentType => "content-type"
    case RequestId => "x-request-id"
    case ErrorCode => "x-error-code"
    case ErrorMessage => "x-error-message"
    case ErrorStatus => "x-error-status"
    case Other(text) => text
  }

  function Named(text: string): Name {
    if text == "content-type" then ContentType
    else if text == "x-request-id" then RequestId
    else if text == "x-error-code" then ErrorCode
    else if text == "x-error-message" then ErrorMessage
    else if text == "x-error-status" then ErrorStatus
    else Other(text)
  }

  /** The names `ParseName` yields. */
  predicate IsName(name: Name) {
    name.Other? ==> IsToken(name.text) && Named(name.text) == name
  }

  /** A header name is read in lower case, or not at all. */
  function ParseName(text: string): Option<Name> {
    if IsToken(Lowered(text)) then Some(Named(Lowered(text))) else None
  }

  /** What a header value may hold. */
  predicate IsValue(value: string) {
    forall i :: 0 <= i < |value| ==> var n := value[i] as int; n == 9 || (n >= 32 && n != 127)
  }

  /** What can be read out of a value as text. */
  predicate IsReadable(value: string) {
    forall i :: 0 <= i < |value| ==> var n := value[i] as int; n == 9 || 32 <= n <= 126
  }

  /** The readable values are the ASCII ones, and outside ASCII everything can be carried. */
  lemma ReadableIsAscii(value: string)
    ensures IsReadable(value) <==> IsValue(value) && forall i :: 0 <= i < |value| ==> value[i] as int <= 127
    ensures IsValue(value) <==> forall i :: 0 <= i < |value| ==> value[i] as int >= 128 || IsReadable([value[i]])
  {
    if !IsValue(value) {
      var i :| 0 <= i < |value| && value[i] as int != 9 && (value[i] as int < 32 || value[i] as int == 127);
      assert [value[i]][0] == value[i];
      assert !IsReadable([value[i]]);
    }
  }

  function Flattened(value: string): string {
    seq(|value|, i requires 0 <= i < |value| => if IsControl(value[i]) then ' ' else value[i])
  }

  /** Nothing above the last control character, U+009F: exactly what flattening leaves readable. */
  predicate FlattensToReadable(value: string) {
    forall i :: 0 <= i < |value| ==> value[i] as int <= 159
  }

  lemma FlattenedIsAValue(value: string)
    ensures IsValue(Flattened(value))
    ensures IsReadable(Flattened(value)) <==> FlattensToReadable(value)
    ensures (forall i :: 0 <= i < |value| ==> !IsControl(value[i])) ==> Flattened(value) == value
  {
    var flat := Flattened(value);
    if !FlattensToReadable(value) {
      var i :| 0 <= i < |value| && value[i] as int > 159;
      assert flat[i] == value[i];
    }
    if IsReadable(flat) {
      forall i | 0 <= i < |value| ensures value[i] as int <= 159 {
        assert flat[i] as int <= 126;
      }
    }
    if forall i :: 0 <= i < |value| ==> !IsControl(value[i]) {
      assert flat == value;
    }
  }

  /** Every name is one `ParseName` yields, every value one a header may hold. */
  predicate IsHeaderMap(headers: HeaderMap) {
    headers != [] ==> IsName(headers[0].name) && IsValue(headers[0].value) && IsHeaderMap(headers[1..])
  }

  lemma {:induction false} HeaderMapsAppend(a: HeaderMap, b: HeaderMap)
    ensures IsHeaderMap(a + b) <==> IsHeaderMap(a) && IsHeaderMap(b)
  {
    if a == [] {
      assert a + b == b;
    } else {
      assert (a + b)[1..] == a[1..] + b;
      HeaderMapsAppend(a[1..], b);
    }
  }

  lemma FrameworkNamesAreTokens(name: Name)
    requires !name.Other?
    ensures IsToken(Text(name)) && Named(Text(name)) == name
  {
  }

  lemma NamesParseAsThemselves(name: Name)
    requires IsName(name)
    ensures ParseName(Text(name)) == Some(name)
  {
    if !name.Other? {
      FrameworkNamesAreTokens(name);
    }
    LoweredToken(Text(name));
  }

  lemma LoweredToken(text: string)
    requires IsToken(text)
    ensures Lowered(text) == text
  {
  }

  /** Upper and lower case make one name: texts that differ in the case of ASCII letters only are read alike. */
  lemma CaseDoesNotMatter(text: string, other: string)
    requires |text| == |other|
    requires forall i :: 0 <= i < |text| ==>
               text[i] == other[i] || ('A' <= text[i] <= 'Z' && other[i] as int == text[i] as int + 32)
    ensures ParseName(text) == ParseName(other)
  {
    assert Lowered(text) == Lowered(other);
  }

  /** A name made of an HTTP token's characters is read as its lower-case spelling; any other is not read. */
  lemma NamesAreReadInLowerCase(text: string)
    ensures ParseName(text).Some? <==>
            text != "" && forall i :: 0 <= i < |text| ==>
              'A' <= text[i] <= 'Z' || 'a' <= text[i] <= 'z' || '0' <= text[i] <= '9' || text[i] in "!#$%&'*+-.^_`|~"
    ensures ParseName(text).Some? ==>
              var read := Text(ParseName(text).value);
              |read| == |text| && forall i :: 0 <= i < |text| ==>
                read[i] as int == if 'A' <= text[i] <= 'Z' then text[i] as int + 32 else text[i] as int
  {
    var low := Lowered(text);
    forall i | 0 <= i < |text|
      ensures IsNameChar(low[i]) <==>
              'A' <= text[i] <= 'Z' || 'a' <= text[i] <= 'z' || '0' <= text[i] <= '9' || text[i] in "!#$%&'*+-.^_`|~"
    {
    }
  }

  lemma MixedCaseNames()
    ensures ParseName("X-Request-Id") == Some(RequestId) && ParseName("Content-Type") == Some(ContentType)
  {
    assert Lowered("X-Request-Id") == "x-request-id";
    assert Lowered("Content-Type") == "content-type";
    FrameworkNamesAreTokens(RequestId);
    FrameworkNamesAreTokens(ContentType);
  }

  lemma ParsedIsAName(text: string)
    ensures ParseName(text).Some? ==> IsName(ParseName(text).value)
  {
  }

  // ------------------------------------------------------------------------
  // Setting a header
  // ------------------------------------------------------------------------

  lemma {:induction false} RemoveKeepsShape(headers: HeaderMap, name: Name)
    requires IsHeaderMap(headers)
    ensures IsHeaderMap(Remove(headers, name))
  {
    if headers != [] {
      RemoveKeepsShape(headers[1..], name);
      HeaderMapsAppend([headers[0]], Remove(headers[1..], name));
    }
  }

  /** Setting a header replaces that name's values by one and touches no other name; a name that is none is ignored. */
  method SetHeader(source: HeaderMap, text: string, value: string) returns (headers: HeaderMap)
    requires IsHeaderMap(source)
    ensures IsHeaderMap(headers)
    ensures ParseName(text).None? ==> headers == source
    ensures ParseName(text).Some? ==>
              forall name :: ValuesOf(headers, name) ==
                if name == ParseName(text).value then [Flattened(value)] else ValuesOf(source, name)
  {
    var flattened := Flattened(value);
    var parsed := ParseName(text);
    FlattenedIsAValue(value);
    ParsedIsAName(text);
    if parsed.None? || !IsValue(flattened) {
      return source;
    }
    headers := Insert(source, parsed.value, flattened);
    RemoveKeepsShape(source, parsed.value);
    HeaderMapsAppend(Remove(source, parsed.value), [Header(parsed.value, flattened)]);
    forall name
      ensures ValuesOf(headers, name) == if name == parsed.value then [flattened] else ValuesOf(source, name)
    {
      ValuesOfInserted(source, parsed.value, flattened, name);
    }
  }

  /** The text of a name's first value. */
  function HeaderValue(headers: HeaderMap, name: Name): Option<string> {
    var values := ValuesOf(headers, name);
    if values != [] && IsReadable(values[0]) then Some(values[0]) else None
  }

  // ------------------------------------------------------------------------
  // Over the wire
  // ------------------------------------------------------------------------

  function ToNats(headers: HeaderMap): seq<Entry> {
    if headers == [] then []
    else
      var before, last := ToNats(headers[..|headers| - 1]), headers[|headers| - 1];
      if IsReadable(last.value) then before + [Entry(Text(last.name), last.value)] else before
  }

  function FromNats(entries: seq<Entry>): HeaderMap {
    if entries == [] then []
    else
      var before, last := FromNats(entries[..|entries| - 1]), entries[|entries| - 1];
      var name := ParseName(last.name);
      if name.Some? && IsValue(last.value) then before + [Header(name.value, last.value)] else before
  }

  /** What arrives at the other end. */
  function Received(headers: HeaderMap): HeaderMap {
    FromNats(ToNats(headers))
  }

  method ToNatsHeaders(source: HeaderMap) returns (entries: seq<Entry>)
    ensures entries == ToNats(source)
  {
    entries := [];
    for i := 0 to |source|
      invariant entries == ToNats(source[..i])
    {
      assert source[..i + 1][..i] == source[..i];
      if !IsReadable(source[i].value) {
        continue;
      }
      entries := entries + [Entry(Text(source[i].name), source[i].value)];
    }
    assert source[..|source|] == source;
  }

  method FromNatsHeaders(source: seq<Entry>) returns (headers: HeaderMap)
    ensures headers == FromNats(source)
  {
    headers := [];
    for i := 0 to |source|
      invariant headers == FromNats(source[..i])
    {
      assert source[..i + 1][..i] == source[..i];
      var name := ParseName(source[i].name);
      if name == None {
        continue;
      }
      if !IsValue(source[i].value) {
        continue;
      }
      headers := headers + [Header(name.value, source[i].value)];
    }
    assert source[..|source|] == source;
  }

  lemma {:induction false} FromNatsIsAHeaderMap(entries: seq<Entry>)
    ensures IsHeaderMap(FromNats(entries))
  {
    if entries != [] {
      var before, last := entries[..|entries| - 1], entries[|entries| - 1];
      FromNatsIsAHeaderMap(before);
      ParsedIsAName(last.name);
      if ParseName(last.name).Some? {
        HeaderMapsAppend(FromNats(before), [Header(ParseName(last.name).value, last.value)]);
      }
    }
  }

  /** From any entries: a name comes to hold exactly the values that can be carried of entries whose name reads so. */
  lemma {:induction false} ReceivedValues(entries: seq<Entry>, name: Name, value: string)
    ensures value in ValuesOf(FromNats(entries), name) <==>
            IsValue(value) && exists i :: 0 <= i < |entries| && entries[i].value == value && ParseName(entries[i].name) == Some(name)
  {
    if entries != [] {
      var n, before := |entries| - 1, entries[..|entries| - 1];
      ReceivedValues(before, name, value);
      assert forall i :: 0 <= i < n ==> before[i] == entries[i];
      var parsed := ParseName(entries[n].name);
      if parsed.Some? && IsValue(entries[n].value) {
        ValuesOfAppended(FromNats(before), [Header(parsed.value, entries[n].value)], name);
      }
    }
  }

  function ReadableOnly(values: seq<string>): seq<string> {
    if values == [] then []
    else if IsReadable(values[|values| - 1]) then ReadableOnly(values[..|values| - 1]) + [values[|values| - 1]]
    else ReadableOnly(values[..|values| - 1])
  }

  lemma ReceivedOneMore(headers: HeaderMap)
    requires headers != [] && IsName(headers[|headers| - 1].name)
    ensures var before, last := headers[..|headers| - 1], headers[|headers| - 1];
      Received(headers) == if IsReadable(last.value) then Received(before) + [last] else Received(before)
  {
    var before, last := headers[..|headers| - 1], headers[|headers| - 1];
    if IsReadable(last.value) {
      var sent := ToNats(headers);
      assert sent[..|sent| - 1] == ToNats(before);
      NamesParseAsThemselves(last.name);
    }
  }

  /** A header map sent over NATS arrives with, under each name, exactly its readable values in their order. */
  lemma {:induction false} WireKeepsReadable(headers: HeaderMap, name: Name)
    requires IsHeaderMap(headers)
    ensures ValuesOf(Received(headers), name) == ReadableOnly(ValuesOf(headers, name))
  {
    if headers != [] {
      var before, last := headers[..|headers| - 1], headers[|headers| - 1];
      AllButLast(headers);
      ReceivedOneMore(headers);
      WireKeepsReadable(before, name);
      ValuesOfOneMore(before, last, name);
      ValuesOfOneMore(Received(before), last, name);
      ReadableOnlyOneMore(ValuesOf(before, name), last.value);
    }
  }

  lemma AllButLast(headers: HeaderMap)
    requires IsHeaderMap(headers) && headers != []
    ensures var before, last := headers[..|headers| - 1], headers[|headers| - 1];
      IsHeaderMap(before) && IsName(last.name) && headers == before + [last]
  {
    var before, last := headers[..|headers| - 1], headers[|headers| - 1];
    assert headers == before + [last];
    HeaderMapsAppend(before, [last]);
  }

  lemma ValuesOfOneMore(headers: HeaderMap, last: Header, name: Name)
    ensures ValuesOf(headers + [last], name) ==
            if last.name == name then ValuesOf(headers, name) + [last.value] else ValuesOf(headers, name)
  {
    ValuesOfAppended(headers, [last], name);
  }

  lemma ReadableOnlyOneMore(values: seq<string>, value: string)
    ensures ReadableOnly(values + [value]) ==
            if IsReadable(value) then ReadableOnly(values) + [value] else ReadableOnly(values)
  {
  }

  lemma ReadableOnlyOfOne(value: string)
    ensures ReadableOnly([value]) == if IsReadable(value) then [value] else []
  {
  }
}
