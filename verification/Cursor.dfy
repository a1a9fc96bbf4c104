/**
 Page cursors: the signed payload, its length fields and the size cap.

 JSON of the key, FlatBuffers of the filters, HMAC-SHA256 and base64url
 (section 5 of RFC 4648, unpadded) are given as functions with the laws in
 `Lawful`; everything between them is modelled byte for byte.
 */
module Cursor {
  import opened Wrappers

  type Byte = n: nat | n < 256
  type Bytes = seq<Byte>
  type Key = string
  type Filters = string

  const VERSION: Byte := 1
  const TAG_LEN: nat := 16
  const HEADER_LEN: nat := 4
  const MAX_CURSOR_CHARS: nat := 4096
  /** The ASCII bytes of `flatbed.page-cursor`. */
  const LABEL: Bytes :=
    [102, 108, 97, 116, 98, 101, 100, 46, 112, 97, 103, 101, 45, 99, 117, 114, 115, 111, 114]

  datatype Direction = Forward | Backward {
    function ByteOf(): Byte {
      if Forward? then 0 else 1
    }
  }

  datatype Binding = Binding(verb: Bytes, path: Bytes, caller: Bytes)

  datatype Env = Env(
    mac: Bytes -> Bytes,
    encode64: Bytes -> string,
    decode64: string -> Option<Bytes>,
    keyToJson: Key -> Option<Bytes>,
    keyFromJson: Bytes -> Option<Key>,
    filtersToBytes: Filters -> Bytes,
    filtersFromBytes: Bytes -> Option<Filters>,
    defaultFilters: Filters)

  ghost predicate Lawful(env: Env) {
    && (forall b :: |env.mac(b)| == 32)
    && (forall b :: env.decode64(env.encode64(b)) == Some(b))
    && (forall b :: |env.encode64(b)| == (4 * |b| + 2) / 3)
    && (forall k :: env.keyToJson(k).Some? ==> env.keyFromJson(env.keyToJson(k).value) == Some(k))
    && (forall f :: env.filtersFromBytes(env.filtersToBytes(f)) == Some(f))
  }

  datatype MintError = KeyDoesNotSerialize | KeyTooLong

  datatype Opened = Opened(filters: Filters, direction: Direction, key: Key)

  /** The low `width` bytes of `n`, most significant first. */
  function BigEndian(n: nat, width: nat): (r: Bytes)
    ensures |r| == width
  {
    if width == 0 then [] else BigEndian(n / 256, width - 1) + [n % 256]
  }

  function FromBigEndian(b: Bytes): nat {
    if b == [] then 0 else FromBigEndian(b[..|b| - 1]) * 256 + b[|b| - 1]
  }

  function Pow256(width: nat): nat {
    if width == 0 then 1 else 256 * Pow256(width - 1)
  }

  lemma {:induction false} BigEndianRoundTrip(n: nat, width: nat)
    requires n < Pow256(width)
    ensures FromBigEndian(BigEndian(n, width)) == n
  {
    if width > 0 {
      BigEndianRoundTrip(n / 256, width - 1);
      var b := BigEndian(n, width);
      assert b[..|b| - 1] == BigEndian(n / 256, width - 1);
    }
  }

  // ------------------------------------------------------------------------
  // What the tag covers
  // ------------------------------------------------------------------------

  function Part(part: Bytes): Bytes {
    BigEndian(|part|, 8) + part
  }

  /** The parts in order, each behind its own eight-byte length. */
  function Fed(parts: seq<Bytes>): Bytes {
    if parts == [] then [] else Part(parts[0]) + Fed(parts[1..])
  }

  function TagInput(binding: Binding, payload: Bytes): Bytes {
    LABEL + Fed([binding.verb, binding.path, binding.caller, payload])
  }

  /** The updates `tag` feeds to the MAC, in order. */
  method FeedTag(binding: Binding, payload: Bytes) returns (input: Bytes)
    ensures input == TagInput(binding, payload)
  {
    input := LABEL;
    var parts := [binding.verb, binding.path, binding.caller, payload];
    for i := 0 to |parts|
      invariant input + Fed(parts[i..]) == LABEL + Fed(parts)
    {
      input := input + BigEndian(|parts[i]|, 8);
      input := input + parts[i];
    }
  }

  const USIZE_LIMIT: nat := Pow256(8)

  lemma PartIsPrefixFree(p: Bytes, x: Bytes, q: Bytes, y: Bytes)
    requires |p| < USIZE_LIMIT && |q| < USIZE_LIMIT
    requires Part(p) + x == Part(q) + y
    ensures p == q && x == y
  {
    var left, right := Part(p) + x, Part(q) + y;
    assert left[..8] == BigEndian(|p|, 8) && right[..8] == BigEndian(|q|, 8);
    BigEndianRoundTrip(|p|, 8);
    BigEndianRoundTrip(|q|, 8);
    assert p == left[8..8 + |p|] && q == right[8..8 + |q|];
    assert x == left[8 + |p|..] && y == right[8 + |q|..];
  }

  ghost predicate AllAddressable(parts: seq<Bytes>) {
    forall i :: 0 <= i < |parts| ==> |parts[i]| < USIZE_LIMIT
  }

  lemma {:induction false} FedIsInjective(ps: seq<Bytes>, qs: seq<Bytes>)
    requires |ps| == |qs| && AllAddressable(ps) && AllAddressable(qs) && Fed(ps) == Fed(qs)
    ensures ps == qs
  {
    if ps != [] {
      PartIsPrefixFree(ps[0], Fed(ps[1..]), qs[0], Fed(qs[1..]));
      FedIsInjective(ps[1..], qs[1..]);
    }
  }

  ghost predicate Addressable(binding: Binding, payload: Bytes) {
    AllAddressable([binding.verb, binding.path, binding.caller, payload])
  }

  /** The bytes under the tag determine method, path, caller and payload. */
  lemma TagInputDeterminesEverything(b: Binding, p: Bytes, b': Binding, p': Bytes)
    requires Addressable(b, p) && Addressable(b', p')
    requires TagInput(b, p) == TagInput(b', p')
    ensures b == b' && p == p'
  {
    var ps, qs := [b.verb, b.path, b.caller, p], [b'.verb, b'.path, b'.caller, p'];
    assert Fed(ps) == TagInput(b, p)[|LABEL|..] && Fed(qs) == TagInput(b', p')[|LABEL|..];
    FedIsInjective(ps, qs);
    assert ps[0] == qs[0] && ps[1] == qs[1] && ps[2] == qs[2] && ps[3] == qs[3];
  }

  // ------------------------------------------------------------------------
  // Minting and opening
  // ------------------------------------------------------------------------

  function Payload(env: Env, direction: Direction, json: Bytes, filters: Filters): Bytes {
    [VERSION, direction.ByteOf()] + BigEndian(|json|, 2) + json + env.filtersToBytes(filters)
  }

  /** The leftmost bytes of the MAC (section 5 of RFC 2104). */
  function Tag(env: Env, binding: Binding, payload: Bytes): Bytes {
    var mac := env.mac(TagInput(binding, payload));
    if |mac| >= TAG_LEN then mac[..TAG_LEN] else mac
  }

  function Mint(env: Env, direction: Direction, key: Key, filters: Filters, binding: Binding): Result<string, MintError> {
    match env.keyToJson(key)
    case None => Err(KeyDoesNotSerialize)
    case Some(json) =>
      if |json| > 0xFFFF then Err(KeyTooLong)
      else
        var payload := Payload(env, direction, json, filters);
        Ok(env.encode64(payload + Tag(env, binding, payload)))
  }

  /** Every rejection is the one `INVALID_CURSOR` error, so absence stands for it. */
  function Open(env: Env, cursor: string, binding: Binding): Option<Opened> {
    if |cursor| > MAX_CURSOR_CHARS then None
    else
      match env.decode64(cursor)
      case None => None
      case Some(bytes) =>
        if |bytes| < TAG_LEN || |bytes| - TAG_LEN < HEADER_LEN then None
        else
          var payload, tag := bytes[..|bytes| - TAG_LEN], bytes[|bytes| - TAG_LEN..];
          if Tag(env, binding, payload) != tag then None else Decode(env, payload)
  }

  function Decode(env: Env, payload: Bytes): Option<Opened>
    requires |payload| >= HEADER_LEN
  {
    if payload[0] != VERSION || payload[1] > 1 then None
    else
      var direction := if payload[1] == 0 then Forward else Backward;
      var keyLen := FromBigEndian(payload[2..4]);
      var rest := payload[4..];
      if |rest| < keyLen then None
      else
        match env.keyFromJson(rest[..keyLen])
        case None => None
        case Some(key) =>
          match env.filtersFromBytes(rest[keyLen..])
          case None => None
          case Some(filters) => Some(Opened(filters, direction, key))
  }

  /** The bytes of a minted cursor before base64. */
  function MintedSize(env: Env, key: Key, filters: Filters): nat
    requires env.keyToJson(key).Some?
  {
    HEADER_LEN + |env.keyToJson(key).value| + |env.filtersToBytes(filters)| + TAG_LEN
  }

  lemma DecodeInvertsPayload(env: Env, direction: Direction, key: Key, filters: Filters)
    requires Lawful(env) && env.keyToJson(key).Some? && |env.keyToJson(key).value| <= 0xFFFF
    ensures Decode(env, Payload(env, direction, env.keyToJson(key).value, filters))
         == Some(Opened(filters, direction, key))
  {
    var json := env.keyToJson(key).value;
    var payload := Payload(env, direction, json, filters);
    assert Pow256(2) == 65536;
    BigEndianRoundTrip(|json|, 2);
    assert payload[2..4] == BigEndian(|json|, 2);
    assert payload[4..][..|json|] == json;
    assert payload[4..][|json|..] == env.filtersToBytes(filters);
  }

  lemma TwoBytes(b: Bytes)
    requires |b| == 2
    ensures FromBigEndian(b) == b[0] as int * 256 + b[1] as int
    ensures BigEndian(FromBigEndian(b), 2) == b
  {
    assert b[..1] == [b[0]] && [b[0]][..0] == [];
    assert FromBigEndian([b[0]]) == b[0];
    var n := FromBigEndian(b);
    assert n / 256 == b[0] && n % 256 == b[1];
    assert BigEndian(b[0], 1) == [b[0]];
  }

  /** A payload of version 1: a direction byte of 0 or 1, the two-byte length of a key, the key, the filters. */
  predicate LaidOut(payload: Bytes, direction: Direction, json: Bytes, filters: Bytes) {
    && |json| <= 65535
    && payload == [1, if direction.Forward? then 0 else 1] + BigEndian(|json|, 2) + json + filters
  }

  /** What decodes is laid out around a key and filters that are read. */
  lemma DecodedIsLaidOut(env: Env, payload: Bytes)
    requires |payload| >= HEADER_LEN && Decode(env, payload).Some?
    ensures var held := Decode(env, payload).value;
      exists json, filters ::
        && LaidOut(payload, held.direction, json, filters)
        && env.keyFromJson(json) == Some(held.key) && env.filtersFromBytes(filters) == Some(held.filters)
  {
    var held := Decode(env, payload).value;
    TwoBytes(payload[2..4]);
    var n := FromBigEndian(payload[2..4]);
    var json, filters := payload[4..][..n], payload[4..][n..];
    assert payload == payload[..2] + payload[2..4] + json + filters;
    assert payload[..2] == [1, if held.direction.Forward? then 0 else 1];
    assert LaidOut(payload, held.direction, json, filters);
  }

  /** And what is so laid out decodes, unless its key or its filters are not read. */
  lemma LaidOutDecodes(env: Env, payload: Bytes, direction: Direction, json: Bytes, filters: Bytes)
    requires LaidOut(payload, direction, json, filters)
    ensures |payload| >= HEADER_LEN
    ensures Decode(env, payload) ==
            if env.keyFromJson(json).None? || env.filtersFromBytes(filters).None? then None
            else Some(Opened(env.filtersFromBytes(filters).value, direction, env.keyFromJson(json).value))
  {
    assert Pow256(2) == 65536;
    BigEndianRoundTrip(|json|, 2);
    assert payload[2..4] == BigEndian(|json|, 2);
    assert payload[4..][..|json|] == json;
    assert payload[4..][|json|..] == filters;
  }

  /**
   A minted cursor opens under its own binding to what it was minted from, up to
   3072 bytes before base64 and not beyond; minting itself needs a key whose JSON
   fits the two-byte length.
   */
  lemma OpenInvertsMintUpToTheCap(env: Env, direction: Direction, key: Key, filters: Filters, binding: Binding)
    requires Lawful(env)
    ensures var minted := Mint(env, direction, key, filters, binding);
      && (minted.Ok? <==> env.keyToJson(key).Some? && |env.keyToJson(key).value| <= 65535)
      && (minted.Ok? ==>
            Open(env, minted.value, binding)
            == if MintedSize(env, key, filters) <= 3072 then Some(Opened(filters, direction, key)) else None)
  {
    if Mint(env, direction, key, filters, binding).Ok? {
      var payload := Payload(env, direction, env.keyToJson(key).value, filters);
      OpenOfTagged(env, payload, Tag(env, binding, payload), binding);
      DecodeInvertsPayload(env, direction, key, filters);
    }
  }

  lemma SmallPayloadIsAddressable(binding: Binding, payload: Bytes)
    requires Addressable(binding, []) && |payload| <= 3072
    ensures Addressable(binding, payload)
  {
    assert Pow256(2) == 65536;
    assert Pow256(8) >= Pow256(7) >= Pow256(6) >= Pow256(5) >= Pow256(4) >= Pow256(3) >= Pow256(2);
    var small, all := [binding.verb, binding.path, binding.caller, []], [binding.verb, binding.path, binding.caller, payload];
    assert small[0] == all[0] && small[1] == all[1] && small[2] == all[2];
  }

  lemma DifferentBindingsFeedDifferentBytes(mine: Binding, other: Binding, payload: Bytes)
    requires Addressable(mine, []) && Addressable(other, []) && |payload| <= 3072 && mine != other
    ensures TagInput(mine, payload) != TagInput(other, payload)
  {
    SmallPayloadIsAddressable(mine, payload);
    SmallPayloadIsAddressable(other, payload);
    if TagInput(mine, payload) == TagInput(other, payload) {
      TagInputDeterminesEverything(mine, payload, other, payload);
    }
  }

  /** What `open` answers for a cursor of known payload and tag. */
  lemma OpenOfTagged(env: Env, payload: Bytes, tag: Bytes, binding: Binding)
    requires Lawful(env) && |payload| >= HEADER_LEN && |tag| == TAG_LEN
    ensures Open(env, env.encode64(payload + tag), binding)
         == if |payload| + TAG_LEN <= 3072 && tag == Tag(env, binding, payload) then Decode(env, payload) else None
  {
  }

  lemma TagIsTheMac(env: Env, binding: Binding, payload: Bytes)
    requires Lawful(env)
    ensures Tag(env, binding, payload) == env.mac(TagInput(binding, payload))[..16]
  {
    assert |env.mac(TagInput(binding, payload))| == 32;
  }

  /**
   What opens: at most 4096 characters of base64url, and in their bytes a payload
   that decodes, followed by the first sixteen bytes of the MAC over label, binding
   and that payload.
   */
  lemma OpenedCarriesItsMac(env: Env, cursor: string, binding: Binding)
    requires Lawful(env)
    ensures Open(env, cursor, binding).Some? <==>
            && |cursor| <= 4096 && env.decode64(cursor).Some?
            && var bytes := env.decode64(cursor).value;
               && |bytes| >= 4 + 16
               && var payload := bytes[..|bytes| - 16];
                  && bytes[|bytes| - 16..] == env.mac(TagInput(binding, payload))[..16]
                  && Decode(env, payload).Some?
    ensures Open(env, cursor, binding).Some? ==>
              var bytes := env.decode64(cursor).value;
              Open(env, cursor, binding) == Decode(env, bytes[..|bytes| - 16])
  {
    if |cursor| <= 4096 && env.decode64(cursor).Some? && |env.decode64(cursor).value| >= 20 {
      var bytes := env.decode64(cursor).value;
      TagIsTheMac(env, binding, bytes[..|bytes| - 16]);
    }
  }

  /**
   Another binding opens a cursor only on a collision of the truncated MAC over
   two inputs that differ.
   */
  lemma OtherBindingsNeedACollision(
    env: Env, direction: Direction, key: Key, filters: Filters, mine: Binding, other: Binding)
    requires Lawful(env) && Mint(env, direction, key, filters, mine).Ok? && mine != other
    requires MintedSize(env, key, filters) <= 3072
    requires Addressable(mine, []) && Addressable(other, [])
    ensures var payload := Payload(env, direction, env.keyToJson(key).value, filters);
      && TagInput(mine, payload) != TagInput(other, payload)
      && (Open(env, Mint(env, direction, key, filters, mine).value, other).Some?
          <==> env.mac(TagInput(mine, payload))[..16] == env.mac(TagInput(other, payload))[..16])
  {
    var payload := Payload(env, direction, env.keyToJson(key).value, filters);
    DifferentBindingsFeedDifferentBytes(mine, other, payload);
    DecodeInvertsPayload(env, direction, key, filters);
    OpenOfTagged(env, payload, Tag(env, mine, payload), other);
    TagIsTheMac(env, mine, payload);
    TagIsTheMac(env, other, payload);
  }

  /** A payload edited under an old tag opens, if it decodes at all, only on such a collision. */
  lemma EditedPayloadsNeedACollision(env: Env, minted: Bytes, edited: Bytes, binding: Binding)
    requires Lawful(env) && minted != edited && |edited| >= HEADER_LEN
    requires |minted| <= 3072 - 16 && |edited| <= 3072 - 16 && Addressable(binding, [])
    ensures TagInput(binding, minted) != TagInput(binding, edited)
    ensures Open(env, env.encode64(edited + env.mac(TagInput(binding, minted))[..16]), binding)
         == if env.mac(TagInput(binding, minted))[..16] == env.mac(TagInput(binding, edited))[..16]
            then Decode(env, edited) else None
  {
    SmallPayloadIsAddressable(binding, minted);
    SmallPayloadIsAddressable(binding, edited);
    if TagInput(binding, minted) == TagInput(binding, edited) {
      TagInputDeterminesEverything(binding, minted, binding, edited);
    }
    TagIsTheMac(env, binding, edited);
    assert |env.mac(TagInput(binding, minted))| == 32;
    OpenOfTagged(env, edited, env.mac(TagInput(binding, minted))[..16], binding);
  }

  lemma LabelIsItsText()
    ensures |LABEL| == |"flatbed.page-cursor"|
    ensures forall i :: 0 <= i < |LABEL| ==> LABEL[i] == "flatbed.page-cursor"[i] as nat
  {
  }
}
