/**
 Replies on a NATS subject: what a responder puts in their headers, and how the
 requester tells a rejection from a success and rebuilds the error. Bodies come
 already serialized.
 */
module Replies {
  import opened Headers
  import opened Wrappers

  const FRAMEWORK_HEADERS := [ContentType, RequestId, ErrorCode, ErrorMessage, ErrorStatus]
  const ERROR_HEADERS := [ErrorCode, ErrorMessage, ErrorStatus]

  const JSON_CONTENT_TYPE := "application/json"
  const FLATBUFFER_CONTENT_TYPE := "application/x-flatbuffers"

  type Status = n: nat | 100 <= n <= 999 witness 500

  datatype Encoding = Json | FlatBuffer

  datatype RouteError = RouteError(status: Status, code: string, message: string, headers: HeaderMap)

  datatype Response = Response(raw: Option<RawBody>, json: Result<string, string>, flat: string, headers: HeaderMap)

  datatype RawBody = RawBody(bytes: string, contentType: string)

  datatype Reply = Reply(payload: string, headers: HeaderMap)

  function Announced(encoding: Encoding): string {
    if encoding.Json? then JSON_CONTENT_TYPE else FLATBUFFER_CONTENT_TYPE
  }

  predicate OccursAt(text: string, part: string, i: nat) {
    i + |part| <= |text| && text[i..i + |part|] == part
  }

  predicate Contains(text: string, part: string) {
    exists i: nat :: i <= |text| && OccursAt(text, part, i)
  }

  function EncodingFrom(contentType: Option<string>): Encoding {
    if contentType.Some? && Contains(contentType.value, JSON_CONTENT_TYPE) then Json else FlatBuffer
  }

  function Digit(n: nat): char
    requires n <= 9
  {
    ('0' as int + n) as char
  }

  function StatusText(status: Status): string {
    [Digit(status / 100), Digit(status / 10 % 10), Digit(status % 10)]
  }

  function ParseStatus(text: string): Option<Status> {
    if |text| == 3 && '1' <= text[0] <= '9' && '0' <= text[1] <= '9' && '0' <= text[2] <= '9' then
      Some(((text[0] as int - 48) * 100 + (text[1] as int - 48) * 10 + (text[2] as int - 48)) as Status)
    else None
  }

  function StatusRead(text: Option<string>): Status {
    if text.Some? && ParseStatus(text.value).Some? then ParseStatus(text.value).value else 500
  }

  /** What a text set as a header value is read back as. */
  function TextOf(value: string): Option<string> {
    if FlattensToReadable(value) then Some(Flattened(value)) else None
  }

  lemma StatusRoundTrip(status: Status)
    ensures StatusRead(TextOf(StatusText(status))) == status
  {
    var text := StatusText(status);
    assert text[0] as int == 48 + status / 100 && text[1] as int == 48 + status / 10 % 10
           && text[2] as int == 48 + status % 10;
    assert status == status / 100 * 100 + status / 10 % 10 * 10 + status % 10;
    assert forall i :: 0 <= i < |text| ==> 48 <= text[i] as int <= 57;
    FlattenedIsAValue(text);
  }

  lemma DigitsOfAStatus(a: int, b: int, c: int)
    requires 1 <= a <= 9 && 0 <= b <= 9 && 0 <= c <= 9
    ensures var n := a * 100 + b * 10 + c;
      n / 100 == a && n / 10 % 10 == b && n % 10 == c
  {
    var n := a * 100 + b * 10 + c;
    assert n / 10 == a * 10 + b;
  }

  lemma ParsedStatusIsItsText(text: string)
    ensures ParseStatus(text).Some? ==> text == StatusText(ParseStatus(text).value)
  {
    if ParseStatus(text).Some? {
      DigitsOfAStatus(text[0] as int - 48, text[1] as int - 48, text[2] as int - 48);
    }
  }

  /** Anything but the text of a status is read as 500. */
  lemma OtherTextsAreInternalErrors(text: Option<string>)
    requires forall status: Status :: text != Some(StatusText(status))
    ensures StatusRead(text) == 500
  {
    if text.Some? {
      ParsedStatusIsItsText(text.value);
    }
  }

  lemma PlainContentType(encoding: Encoding)
    ensures TextOf(Announced(encoding)) == Some(Announced(encoding))
  {
    var text := Announced(encoding);
    assert forall i :: 0 <= i < |text| ==> 32 <= text[i] as int <= 126;
    FlattenedIsAValue(text);
  }

  lemma EncodingRoundTrip(encoding: Encoding)
    ensures EncodingFrom(Some(Announced(encoding))) == encoding
  {
    var text := Announced(encoding);
    if encoding.Json? {
      assert OccursAt(text, JSON_CONTENT_TYPE, 0);
    } else if i: nat :| i <= |text| && OccursAt(text, JSON_CONTENT_TYPE, i) {
      assert text[i + 12] == text[i..i + |JSON_CONTENT_TYPE|][12] == 'j';
    }
  }

  // ------------------------------------------------------------------------
  // What a responder sends
  // ------------------------------------------------------------------------

  function CodeOf(err: RouteError): string {
    if err.code == "" then "ERROR" else err.code
  }

  /** The values an error reply carries under each name: the framework's five, and the error's own under every other. */
  function ErrValues(encoding: Encoding, requestId: string, err: RouteError, name: Name): seq<string> {
    if name == ContentType then [Flattened(Announced(encoding))]
    else if name == RequestId then [Flattened(requestId)]
    else if name == ErrorCode then [Flattened(CodeOf(err))]
    else if name == ErrorMessage then [Flattened(err.message)]
    else if name == ErrorStatus then [Flattened(StatusText(err.status))]
    else ValuesOf(err.headers, name)
  }

  ghost predicate IsErrReply(encoding: Encoding, requestId: string, err: RouteError, headers: HeaderMap) {
    IsHeaderMap(headers) && forall name :: ValuesOf(headers, name) == ErrValues(encoding, requestId, err, name)
  }

  /** The values a success reply carries: no error header, whatever the handler set. */
  function OkValues(contentType: string, requestId: string, own: HeaderMap, name: Name): seq<string> {
    if name == ContentType then [Flattened(contentType)]
    else if name == RequestId then [Flattened(requestId)]
    else if name in ERROR_HEADERS then []
    else ValuesOf(own, name)
  }

  ghost predicate IsOkReply(contentType: string, requestId: string, own: HeaderMap, headers: HeaderMap) {
    IsHeaderMap(headers) && forall name :: ValuesOf(headers, name) == OkValues(contentType, requestId, own, name)
  }

  /** `SetHeader` under one of the framework's names. */
  method SetFramework(source: HeaderMap, own: Name, value: string) returns (headers: HeaderMap)
    requires IsHeaderMap(source) && !own.Other?
    ensures IsHeaderMap(headers)
    ensures forall name :: ValuesOf(headers, name) == if name == own then [Flattened(value)] else ValuesOf(source, name)
  {
    NamesParseAsThemselves(own);
    headers := SetHeader(source, Text(own), value);
  }

  method CopyHeaders(source: HeaderMap) returns (headers: HeaderMap)
    ensures headers == source
  {
    headers := [];
    for i := 0 to |source|
      invariant headers == source[..i]
    {
      headers := headers + [source[i]];
    }
  }

  /** `json` is the serialized error object, `details` the error's encoded details. */
  method ReplyErr(encoding: Encoding, requestId: string, err: RouteError, json: string, details: Option<string>)
    returns (reply: Reply)
    requires IsHeaderMap(err.headers)
    ensures IsErrReply(encoding, requestId, err, reply.headers)
    ensures reply.payload == if encoding.Json? then json else if details.Some? then details.value else ""
  {
    var payload := if encoding.Json? then json else if details.Some? then details.value else "";
    var headers := CopyHeaders(err.headers);
    headers := SetFramework(headers, ContentType, Announced(encoding));
    headers := SetFramework(headers, RequestId, requestId);
    headers := SetFramework(headers, ErrorCode, CodeOf(err));
    headers := SetFramework(headers, ErrorMessage, err.message);
    headers := SetFramework(headers, ErrorStatus, StatusText(err.status));
    reply := Reply(payload, headers);
  }

  function SerializationError(message: string): RouteError {
    RouteError(500, "SERIALIZATION_ERROR", "JSON serialization error: " + message, [])
  }

  /** `errorJson` is the serialized error object used when the body itself cannot be serialized. */
  method ReplyOk(encoding: Encoding, requestId: string, response: Response, errorJson: string) returns (reply: Reply)
    requires IsHeaderMap(response.headers)
    ensures response.raw.Some? ==>
              && reply.payload == response.raw.value.bytes
              && IsOkReply(response.raw.value.contentType, requestId, response.headers, reply.headers)
    ensures response.raw.None? && encoding.FlatBuffer? ==>
              && reply.payload == response.flat
              && IsOkReply(FLATBUFFER_CONTENT_TYPE, requestId, response.headers, reply.headers)
    ensures response.raw.None? && encoding.Json? && response.json.Ok? ==>
              && reply.payload == response.json.value
              && IsOkReply(JSON_CONTENT_TYPE, requestId, response.headers, reply.headers)
    ensures response.raw.None? && encoding.Json? && response.json.Err? ==>
              && reply.payload == errorJson
              && IsErrReply(encoding, requestId, SerializationError(response.json.error), reply.headers)
  {
    var payload, contentType;
    if response.raw.Some? {
      payload, contentType := response.raw.value.bytes, response.raw.value.contentType;
    } else if encoding.Json? {
      if response.json.Err? {
        reply := ReplyErr(encoding, requestId, SerializationError(response.json.error), errorJson, None);
        return;
      }
      payload, contentType := response.json.value, Announced(encoding);
    } else {
      payload, contentType := response.flat, Announced(encoding);
    }
    var headers := CopyHeaders(response.headers);
    headers := RemoveAll(headers, ERROR_HEADERS);
    headers := SetFramework(headers, ContentType, contentType);
    headers := SetFramework(headers, RequestId, requestId);
    reply := Reply(payload, headers);
  }

  method RemoveOne(source: HeaderMap, gone: Name) returns (headers: HeaderMap)
    requires IsHeaderMap(source)
    ensures IsHeaderMap(headers)
    ensures forall name :: ValuesOf(headers, name) == if name == gone then [] else ValuesOf(source, name)
  {
    headers := Remove(source, gone);
    RemoveKeepsShape(source, gone);
    forall name ensures ValuesOf(headers, name) == if name == gone then [] else ValuesOf(source, name) {
      ValuesOfRemoved(source, gone, name);
    }
  }

  /** The removal loops of `reply_ok` and `rejection`. */
  method RemoveAll(source: HeaderMap, names: seq<Name>) returns (headers: HeaderMap)
    requires IsHeaderMap(source)
    ensures IsHeaderMap(headers)
    ensures forall name :: ValuesOf(headers, name) == if name in names then [] else ValuesOf(source, name)
  {
    headers := source;
    for i := 0 to |names|
      invariant IsHeaderMap(headers)
      invariant forall name :: ValuesOf(headers, name) == if name in names[..i] then [] else ValuesOf(source, name)
    {
      assert names[..i + 1] == names[..i] + [names[i]];
      headers := RemoveOne(headers, names[i]);
    }
    assert names[..|names|] == names;
  }

  // ------------------------------------------------------------------------
  // What the requester reads
  // ------------------------------------------------------------------------

  /** How a reply's headers are read: as no rejection, or as the one they describe. */
  ghost predicate IsReadAs(headers: HeaderMap, outcome: Option<RouteError>) {
    && (outcome.Some? <==> HeaderValue(headers, ErrorCode).Some?)
    && (outcome.Some? ==>
          var code, message := HeaderValue(headers, ErrorCode), HeaderValue(headers, ErrorMessage);
          && outcome.value.status == StatusRead(HeaderValue(headers, ErrorStatus))
          && outcome.value.code == code.value
          && outcome.value.message == (if message.Some? then message.value else "")
          && forall name :: ValuesOf(outcome.value.headers, name) ==
                if name in FRAMEWORK_HEADERS then [] else ValuesOf(headers, name))
  }

  method Rejection(source: HeaderMap) returns (error: RouteError)
    requires IsHeaderMap(source)
    ensures HeaderValue(source, ErrorCode).Some? ==> IsReadAs(source, Some(error))
    ensures HeaderValue(source, ErrorCode).None? ==> error.code == "ERROR"
  {
    var status: Status := 500;
    var sent := HeaderValue(source, ErrorStatus);
    if sent.Some? {
      var parsed := ParseStatus(sent.value);
      if parsed.Some? {
        status := parsed.value;
      }
    }
    var code := HeaderValue(source, ErrorCode);
    var message := HeaderValue(source, ErrorMessage);
    var headers := RemoveAll(source, FRAMEWORK_HEADERS);
    error := RouteError(status, if code.Some? then code.value else "ERROR",
                        if message.Some? then message.value else "", headers);
  }

  /** The reply branch of an awaited request. */
  method ReadReply(received: seq<Entry>) returns (outcome: Option<RouteError>)
    ensures IsReadAs(FromNats(received), outcome)
  {
    var headers := FromNatsHeaders(received);
    FromNatsIsAHeaderMap(received);
    if HeaderValue(headers, ErrorCode).Some? {
      var error := Rejection(headers);
      return Some(error);
    }
    outcome := None;
  }

  // ------------------------------------------------------------------------
  // The two ends are inverse
  // ------------------------------------------------------------------------

  lemma SetTextComesBack(sent: HeaderMap, name: Name, value: string)
    requires IsHeaderMap(sent) && ValuesOf(sent, name) == [Flattened(value)]
    ensures HeaderValue(Received(sent), name) == TextOf(value)
  {
    WireKeepsReadable(sent, name);
    ReadableOnlyOfOne(Flattened(value));
    FlattenedIsAValue(value);
  }

  /**
   An error reply sent over NATS and read back. It is taken for the rejection it
   is exactly when its code survives flattening as readable text; then the
   status and the code come back, the message unless it is unreadable, and the
   handler's own readable headers without the framework's five.
   */
  lemma RejectionInvertsReplyErr(encoding: Encoding, requestId: string, err: RouteError,
                                 sent: HeaderMap, outcome: Option<RouteError>)
    requires IsErrReply(encoding, requestId, err, sent) && IsReadAs(Received(sent), outcome)
    ensures outcome.Some? <==> FlattensToReadable(err.code)
    ensures outcome.Some? ==>
              && outcome.value.status == err.status
              && outcome.value.code == (if err.code == "" then "ERROR" else Flattened(err.code))
              && outcome.value.message == (if FlattensToReadable(err.message) then Flattened(err.message) else "")
              && forall name :: ValuesOf(outcome.value.headers, name) ==
                    if name in FRAMEWORK_HEADERS then [] else ReadableOnly(ValuesOf(err.headers, name))
  {
    ErrorTextsComeBack(encoding, requestId, err, sent);
    StatusRoundTrip(err.status);
    FlattenedIsAValue("ERROR");
    if outcome.Some? {
      OwnHeadersComeBack(encoding, requestId, err, sent, outcome.value);
    }
  }

  lemma ErrorTextsComeBack(encoding: Encoding, requestId: string, err: RouteError, sent: HeaderMap)
    requires IsErrReply(encoding, requestId, err, sent)
    ensures HeaderValue(Received(sent), ErrorStatus) == TextOf(StatusText(err.status))
    ensures HeaderValue(Received(sent), ErrorCode) == TextOf(CodeOf(err))
    ensures HeaderValue(Received(sent), ErrorMessage) == TextOf(err.message)
  {
    SetTextComesBack(sent, ErrorStatus, StatusText(err.status));
    SetTextComesBack(sent, ErrorCode, CodeOf(err));
    SetTextComesBack(sent, ErrorMessage, err.message);
  }

  lemma OwnHeadersComeBack(encoding: Encoding, requestId: string, err: RouteError, sent: HeaderMap, back: RouteError)
    requires IsErrReply(encoding, requestId, err, sent) && IsReadAs(Received(sent), Some(back))
    ensures forall name :: ValuesOf(back.headers, name) ==
              if name in FRAMEWORK_HEADERS then [] else ReadableOnly(ValuesOf(err.headers, name))
  {
    forall name ensures ValuesOf(back.headers, name) ==
                        if name in FRAMEWORK_HEADERS then [] else ReadableOnly(ValuesOf(err.headers, name)) {
      WireKeepsReadable(sent, name);
    }
  }

  /**
   With a printable code and message, what the handler returned is what the
   requester gets, provided the client library carries header values as they are:
   any trimming of their outer spaces is not modelled.
   */
  lemma PrintableErrorsComeBackWhole(encoding: Encoding, requestId: string, err: RouteError,
                                     sent: HeaderMap, outcome: Option<RouteError>)
    requires IsErrReply(encoding, requestId, err, sent) && IsReadAs(Received(sent), outcome)
    requires err.code != "" && forall c :: c in err.code + err.message ==> ' ' <= c <= '~'
    ensures outcome.Some? && outcome.value.status == err.status
    ensures outcome.value.code == err.code && outcome.value.message == err.message
  {
    RejectionInvertsReplyErr(encoding, requestId, err, sent, outcome);
    assert forall i :: 0 <= i < |err.code| ==> err.code[i] in err.code + err.message;
    assert forall i :: 0 <= i < |err.message| ==> err.message[i] in err.code + err.message;
    FlattenedIsAValue(err.code);
    FlattenedIsAValue(err.message);
  }

  lemma PlainTexts()
    ensures FlattensToReadable("SERIALIZATION_ERROR") && Flattened("SERIALIZATION_ERROR") == "SERIALIZATION_ERROR"
  {
    FlattenedIsAValue("SERIALIZATION_ERROR");
  }

  /** A body that cannot be serialized reaches the requester as an internal error under its own code. */
  lemma UnserializableIsInternal(encoding: Encoding, requestId: string, reason: string,
                                 sent: HeaderMap, outcome: Option<RouteError>)
    requires IsErrReply(encoding, requestId, SerializationError(reason), sent) && IsReadAs(Received(sent), outcome)
    ensures outcome.Some? && outcome.value.status == 500 && outcome.value.code == "SERIALIZATION_ERROR"
  {
    RejectionInvertsReplyErr(encoding, requestId, SerializationError(reason), sent, outcome);
    PlainTexts();
  }

  /** What the requester reads beside the error: the reply's encoding and the request's id. */
  lemma ErrorsSayTheirEncoding(encoding: Encoding, requestId: string, err: RouteError, sent: HeaderMap)
    requires IsErrReply(encoding, requestId, err, sent)
    ensures HeaderValue(Received(sent), ContentType) ==
            Some(if encoding.Json? then "application/json" else "application/x-flatbuffers")
    ensures HeaderValue(Received(sent), RequestId) == TextOf(requestId)
  {
    SetTextComesBack(sent, ContentType, Announced(encoding));
    SetTextComesBack(sent, RequestId, requestId);
    PlainContentType(encoding);
  }

  /** The same of a success, with the handler's own readable headers under every name but the five. */
  lemma SuccessComesBack(contentType: string, requestId: string, own: HeaderMap, sent: HeaderMap, name: Name)
    requires IsOkReply(contentType, requestId, own, sent)
    ensures HeaderValue(Received(sent), ContentType) == TextOf(contentType)
    ensures HeaderValue(Received(sent), RequestId) == TextOf(requestId)
    ensures name !in FRAMEWORK_HEADERS ==> ValuesOf(Received(sent), name) == ReadableOnly(ValuesOf(own, name))
  {
    SetTextComesBack(sent, ContentType, contentType);
    SetTextComesBack(sent, RequestId, requestId);
    WireKeepsReadable(sent, name);
  }

  /** A success reply is never taken for a rejection, whatever headers the handler set. */
  lemma SuccessIsNeverARejection(contentType: string, requestId: string, own: HeaderMap,
                                 sent: HeaderMap, outcome: Option<RouteError>)
    requires IsOkReply(contentType, requestId, own, sent) && IsReadAs(Received(sent), outcome)
    ensures outcome.None?
  {
    WireKeepsReadable(sent, ErrorCode);
  }

  /** A code the header cannot carry: the reply is read as a success. */
  lemma UnreadableCodeLooksLikeSuccess(requestId: string, sent: HeaderMap, outcome: Option<RouteError>)
    requires IsErrReply(Json, requestId, RouteError(404, "\U{00E9}", "", []), sent)
    requires IsReadAs(Received(sent), outcome)
    ensures outcome.None?
  {
    var err := RouteError(404, "\U{00E9}", "", []);
    RejectionInvertsReplyErr(Json, requestId, err, sent, outcome);
    assert err.code[0] as int == 0xE9;
  }

  // ------------------------------------------------------------------------
  // The request's own headers
  // ------------------------------------------------------------------------

  /** The values a request carries: the encoding's content type, a readable id, and otherwise the caller's. */
  function RequestValues(encoding: Encoding, own: HeaderMap, generated: string, name: Name): seq<string> {
    if name == ContentType then [Flattened(Announced(encoding))]
    else if name == RequestId && HeaderValue(own, RequestId).None? then [Flattened(generated)]
    else ValuesOf(own, name)
  }

  ghost predicate IsRequest(encoding: Encoding, own: HeaderMap, generated: string, sent: HeaderMap) {
    IsHeaderMap(sent) && forall name :: ValuesOf(sent, name) == RequestValues(encoding, own, generated, name)
  }

  /** `generated` is the generated id. */
  method RequestHeaders(encoding: Encoding, own: HeaderMap, generated: string) returns (headers: HeaderMap)
    requires IsHeaderMap(own)
    ensures IsRequest(encoding, own, generated, headers)
  {
    headers := own;
    if HeaderValue(headers, RequestId).None? {
      headers := SetFramework(headers, RequestId, generated);
    }
    headers := SetFramework(headers, ContentType, Announced(encoding));
  }

  /** The responder answers in the encoding the request was made in, whatever content type the caller set. */
  lemma ResponderReadsTheEncoding(encoding: Encoding, own: HeaderMap, generated: string, sent: HeaderMap)
    requires IsRequest(encoding, own, generated, sent)
    ensures EncodingFrom(HeaderValue(Received(sent), ContentType)) == encoding
  {
    SetTextComesBack(sent, ContentType, Announced(encoding));
    PlainContentType(encoding);
    EncodingRoundTrip(encoding);
  }

  /** The responder reads the caller's id when it can be read, and the generated one otherwise. */
  lemma ResponderReadsTheId(encoding: Encoding, own: HeaderMap, generated: string, sent: HeaderMap)
    requires IsRequest(encoding, own, generated, sent) && FlattensToReadable(generated)
    ensures HeaderValue(Received(sent), RequestId) ==
            if HeaderValue(own, RequestId).Some? then HeaderValue(own, RequestId) else Some(Flattened(generated))
  {
    if HeaderValue(own, RequestId).Some? {
      WireKeepsReadable(sent, RequestId);
      ReadableOnlyKeepsAReadableFirst(ValuesOf(own, RequestId));
    } else {
      SetTextComesBack(sent, RequestId, generated);
    }
  }

  lemma {:induction false} ReadableOnlyKeepsAReadableFirst(values: seq<string>)
    requires values != [] && IsReadable(values[0])
    ensures ReadableOnly(values) != [] && ReadableOnly(values)[0] == values[0]
  {
    if |values| == 1 {
      assert values == [values[0]];
      ReadableOnlyOfOne(values[0]);
    } else {
      ReadableOnlyKeepsAReadableFirst(values[..|values| - 1]);
    }
  }
}
