/**
 What the generated TypeScript codec does, table by table.

 The emitters turn a reflected schema into `encode{T}` and `decode{T}`
 functions over the FlatBuffers builder and reader. The functions here are the
 meaning of that emitted code: a table on the wire is its vtable, one optional
 entry per slot, and a child reached through an offset is a child of the tree.
 Byte positions and floats are not modelled.
 */
module TableCodec {
  import opened Wrappers
  import FlagBits

  type Name = string

  /** A fixed-width integer, `int8` to `uint64`. */
  datatype IntType = IntType(size: nat, signed: bool)

  /** An `fbs_type` string resolved against the schema. */
  datatype FieldType =
    | Bool
    | Int(t: IntType)
    | Enum(enum: Name)
    | FlagSet(enum: Name)
    | Str
    | Table(table: Name)
    | Union(union: Name)
    | Vector(elem: FieldType)

  datatype Default = IntLiteral(n: int) | BoolLiteral(b: bool) | Variant(variant: Name)

  datatype Field = Field(name: Name, ty: FieldType, id: nat, default: Option<Default>)

  datatype EnumDef = EnumDef(variants: seq<(Name, int)>, underlying: IntType)

  datatype Arm = Arm(variant: Name, table: Name, tag: nat)

  datatype Schema = Schema(
    tables: map<Name, seq<Field>>,
    enums: map<Name, EnumDef>,
    flags: map<Name, FlagBits.Flags>,
    unions: map<Name, seq<Arm>>)

  /** A TypeScript value, whole numbers as `number` or as `bigint`; a table's fields stand in declaration order. */
  datatype Val =
    | Undefined
    | VBool(b: bool)
    | VNumber(n: int)
    | VBigInt(n: int)
    | VFlags(names: seq<Name>)
    | VStr(s: string)
    | VTable(fields: seq<Val>)
    | VUnion(variant: Name, value: Val)
    | VVector(elems: seq<Val>)

  /** A vtable entry, or what it points at. */
  datatype Wire =
    | Absent
    | WInt(raw: nat)
    | WBits(bits: FlagBits.Bits)
    | WStr(s: string)
    | WTable(slots: seq<Wire>)
    | WVector(elems: seq<Wire>)

  /** Decoding throws on flag bits the schema does not name; malformed wire trees throw too. */
  datatype Decoded = Got(v: Val) | Threw

  // ------------------------------------------------------------------------
  // Scalars
  // ------------------------------------------------------------------------

  function Modulus(size: nat): (m: nat)
    ensures m >= 1
  {
    if size == 0 then 1 else 256 * Modulus(size - 1)
  }

  predicate InRange(t: IntType, n: int) {
    if t.signed then 0 <= 2 * n + Modulus(t.size) < 2 * Modulus(t.size) else 0 <= n < Modulus(t.size)
  }

  /** The ranges of the eight integer types. */
  lemma RangesOfTheTypes(n: int)
    ensures InRange(IntType(1, false), n) <==> 0 <= n <= 255
    ensures InRange(IntType(1, true), n) <==> -128 <= n <= 127
    ensures InRange(IntType(2, false), n) <==> 0 <= n <= 65535
    ensures InRange(IntType(2, true), n) <==> -32768 <= n <= 32767
    ensures InRange(IntType(4, false), n) <==> 0 <= n <= 0xFFFF_FFFF
    ensures InRange(IntType(4, true), n) <==> -0x8000_0000 <= n <= 0x7FFF_FFFF
    ensures InRange(IntType(8, false), n) <==> 0 <= n <= 0xFFFF_FFFF_FFFF_FFFF
    ensures InRange(IntType(8, true), n) <==> -0x8000_0000_0000_0000 <= n <= 0x7FFF_FFFF_FFFF_FFFF
  {
    assert Modulus(1) == 256 && Modulus(2) == 0x1_0000 && Modulus(3) == 0x100_0000 && Modulus(4) == 0x1_0000_0000;
    assert Modulus(5) == 0x100_0000_0000 && Modulus(6) == 0x1_0000_0000_0000;
    assert Modulus(7) == 0x100_0000_0000_0000 && Modulus(8) == 0x1_0000_0000_0000_0000;
  }

  /** The builder keeps the low bytes. */
  function WriteInt(t: IntType, n: int): nat {
    n % Modulus(t.size)
  }

  function ReadInt(t: IntType, raw: nat): int {
    if t.signed && 2 * raw >= Modulus(t.size) then raw - Modulus(t.size) else raw
  }

  lemma RemainderIs(n: int, m: int, q: int, r: int)
    requires m >= 1 && n == q * m + r && 0 <= r < m
    ensures n % m == r
  {
    var d := n / m - q;
    assert n == (n / m) * m + n % m;
    assert d * m == r - n % m;
    assert (d >= 1 ==> d * m >= m) && (d <= -1 ==> d * m <= -m);
  }

  lemma ReadInvertsWrite(t: IntType, n: int)
    requires InRange(t, n)
    ensures ReadInt(t, WriteInt(t, n)) == n
  {
    var m := Modulus(t.size);
    if n < 0 {
      RemainderIs(n, m, -1, n + m);
    } else {
      RemainderIs(n, m, 0, n);
    }
  }

  /** The 8-byte accessors of the reader and their default literals are `bigint`, all others `number`. */
  function IntValue(t: IntType, n: int): Val {
    if t.size == 8 then VBigInt(n) else VNumber(n)
  }

  predicate IsWhole(v: Val) {
    v.VNumber? || v.VBigInt?
  }

  function EnumValue(s: Schema, name: Name, variant: Name): int {
    if name in s.enums then Lookup(s.enums[name].variants, variant) else 0
  }

  function Lookup(variants: seq<(Name, int)>, variant: Name): int {
    if variants == [] then 0
    else if variants[0].0 == variant then variants[0].1
    else Lookup(variants[1..], variant)
  }

  function EnumType(s: Schema, name: Name): IntType {
    if name in s.enums then s.enums[name].underlying else IntType(4, true)
  }

  function FlagsOf(s: Schema, name: Name): FlagBits.Flags {
    if name in s.flags then s.flags[name] else []
  }

  function FieldsOf(s: Schema, name: Name): seq<Field> {
    if name in s.tables then s.tables[name] else []
  }

  function ArmsOf(s: Schema, name: Name): seq<Arm> {
    if name in s.unions then s.unions[name] else []
  }

  predicate IsScalar(ty: FieldType) {
    ty.Bool? || ty.Int? || ty.Enum? || ty.FlagSet?
  }

  /** The wire entry `encode` compares a bool or a flag set with, to leave it out; integers are compared as values. */
  function EncodeDefault(s: Schema, f: Field): Wire {
    match f.ty
    case Bool => WInt(if f.default == Some(BoolLiteral(true)) then 1 else 0)
    case FlagSet(e) =>
      WBits(if f.default.Some? && f.default.value.Variant? then FlagBits.MaskOf(FlagsOf(s, e), f.default.value.variant) else {})
    case _ => Absent
  }

  function IntDefault(s: Schema, f: Field): int {
    match f.default
    case Some(IntLiteral(n)) => n
    case Some(Variant(v)) => if f.ty.Enum? then EnumValue(s, f.ty.enum, v) else 0
    case _ => 0
  }

  /** What `decode` yields for a field with no entry. */
  function AbsentValue(s: Schema, f: Field): Val {
    match f.ty
    case Bool => VBool(f.default == Some(BoolLiteral(true)))
    case FlagSet(e) => VFlags(FlagBits.NamesIn(FlagsOf(s, e), EncodeDefault(s, f).bits))
    case Enum(e) => IntValue(EnumType(s, e), IntDefault(s, f))
    case Int(t) => IntValue(t, IntDefault(s, f))
    case _ => Undefined
  }

  // ------------------------------------------------------------------------
  // Encoding
  // ------------------------------------------------------------------------

  /** `startObject`'s argument: one slot per field id. */
  function SlotCount(fields: seq<Field>): (n: nat)
    ensures forall i :: 0 <= i < |fields| ==> fields[i].id < n
  {
    if fields == [] then 0
    else
      var rest := SlotCount(fields[1..]);
      assert forall i :: 1 <= i < |fields| ==> fields[1..][i - 1] == fields[i];
      if fields[0].id + 1 > rest then fields[0].id + 1 else rest
  }

  function EmptySlots(n: nat): (r: seq<Wire>)
    ensures |r| == n && forall k :: 0 <= k < n ==> r[k] == Absent
  {
    seq(n, _ => Absent)
  }

  function Put(slots: seq<Wire>, slot: int, w: Wire): seq<Wire> {
    if 0 <= slot < |slots| then slots[slot := w] else slots
  }

  function ArmFor(arms: seq<Arm>, variant: Name): Option<Arm> {
    if arms == [] then None else if arms[0].variant == variant then Some(arms[0]) else ArmFor(arms[1..], variant)
  }

  function ArmTagged(arms: seq<Arm>, tag: nat): Option<Arm> {
    if arms == [] then None else if arms[0].tag == tag then Some(arms[0]) else ArmTagged(arms[1..], tag)
  }

  /**
   A scalar as an entry, or the child an offset points at; `Absent` for the zero
   offset. A `number` given to an 8-byte add leaves its bytes, the most it can do.
   */
  function EncodeValue(s: Schema, ty: FieldType, v: Val): Wire
    decreases v, 1, 0
  {
    match ty
    case Bool => if v.VBool? then WInt(if v.b then 1 else 0) else Absent
    case Int(t) => if IsWhole(v) then WInt(WriteInt(t, v.n)) else Absent
    case Enum(e) => if IsWhole(v) then WInt(WriteInt(EnumType(s, e), v.n)) else Absent
    case FlagSet(e) => if v.VFlags? then WBits(FlagBits.Encode(FlagsOf(s, e), v.names)) else Absent
    case Str => if v.VStr? then WStr(v.s) else Absent
    case Table(t) => if v.VTable? then EncodeTable(s, t, v) else Absent
    case Vector(e) =>
      if v.VVector? then WVector(seq(|v.elems|, i requires 0 <= i < |v.elems| => EncodeValue(s, e, v.elems[i]))) else Absent
    case Union(_) => Absent
  }

  /** `encode{T}`: start the object, add every field, end it. */
  function EncodeTable(s: Schema, table: Name, v: Val): Wire
    requires v.VTable?
    decreases v, 0, |v.fields| + 1
  {
    var fields := FieldsOf(s, table);
    var empty := EmptySlots(SlotCount(fields));
    if |v.fields| == |fields| then WTable(AddFields(s, fields, v, 0, empty)) else WTable(empty)
  }

  function AddFields(s: Schema, fields: seq<Field>, v: Val, i: nat, slots: seq<Wire>): (r: seq<Wire>)
    requires v.VTable? && i <= |fields| == |v.fields|
    ensures |r| == |slots|
    decreases v, 0, |v.fields| - i
  {
    if i == |fields| then slots else AddFields(s, fields, v, i + 1, AddField(s, fields[i], v.fields[i], slots))
  }

  /** One field's `addField` calls; a union adds its discriminator in the slot before its own. */
  function AddField(s: Schema, f: Field, v: Val, slots: seq<Wire>): (r: seq<Wire>)
    ensures |r| == |slots|
    decreases v, 3, 0
  {
    if f.ty.Union? then
      if !v.VUnion? then slots
      else
        match ArmFor(ArmsOf(s, f.ty.union), v.variant)
        case None => slots
        case Some(arm) =>
          var tagged := if arm.tag == 0 then slots else Put(slots, f.id - 1, WInt(arm.tag % 256));
          Put(tagged, f.id, EncodeValue(s, Table(arm.table), v.value))
    else
      var w := EncodeValue(s, f.ty, v);
      if w.Absent? || (IsScalar(f.ty) && LeftOut(s, f, v)) then slots else Put(slots, f.id, w)
  }

  /** The builder's omission test, on the values as the caller passes them: no `number` equals a `bigint`. */
  predicate LeftOut(s: Schema, f: Field, v: Val)
    decreases v, 2, 0
  {
    match f.ty
    case Int(t) => v == IntValue(t, IntDefault(s, f))
    case Enum(e) => v == IntValue(EnumType(s, e), IntDefault(s, f))
    case _ => EncodeValue(s, f.ty, v) == EncodeDefault(s, f)
  }

  /** The emitted vector builder: elements go in from the last to the first, each before the ones already there. */
  method BuildVector(s: Schema, elem: FieldType, v: Val) returns (w: Wire)
    requires v.VVector?
    ensures w == EncodeValue(s, Vector(elem), v)
  {
    var elems: seq<Wire> := [];
    for i := |v.elems| downto 0
      invariant |elems| == |v.elems| - i
      invariant forall k :: i <= k < |v.elems| ==> elems[k - i] == EncodeValue(s, elem, v.elems[k])
    {
      elems := [EncodeValue(s, elem, v.elems[i])] + elems;
    }
    w := WVector(elems);
    assert elems == EncodeValue(s, Vector(elem), v).elems;
  }

  // ------------------------------------------------------------------------
  // Decoding
  // ------------------------------------------------------------------------

  /** `bb.__offset`: absent for an empty entry and for a slot past the vtable. */
  function SlotAt(w: Wire, slot: int): Wire {
    if w.WTable? && 0 <= slot < |w.slots| then w.slots[slot] else Absent
  }

  function DecodeValue(s: Schema, ty: FieldType, w: Wire): Decoded
    decreases w, 1, 0
  {
    match ty
    case Bool => if w.WInt? then Got(VBool(w.raw != 0)) else Threw
    case Int(t) => if w.WInt? then Got(IntValue(t, ReadInt(t, w.raw))) else Threw
    case Enum(e) => if w.WInt? then Got(IntValue(EnumType(s, e), ReadInt(EnumType(s, e), w.raw))) else Threw
    case FlagSet(e) =>
      if !w.WBits? then Threw
      else
        (match FlagBits.Decode(FlagsOf(s, e), w.bits)
         case None => Threw
         case Some(names) => Got(VFlags(names)))
    case Str => if w.WStr? then Got(VStr(w.s)) else Threw
    case Table(t) => if w.WTable? then DecodeTable(s, t, w) else Threw
    case Vector(e) => if w.WVector? then DecodeElems(s, e, w, 0, []) else Threw
    case Union(_) => Threw
  }

  /** The emitted loop: `for (let i = 0; i < len; i++) arr.push(...)`. */
  function DecodeElems(s: Schema, elem: FieldType, w: Wire, i: nat, arr: seq<Val>): Decoded
    requires w.WVector? && i <= |w.elems|
    decreases w, 0, |w.elems| - i
  {
    if i == |w.elems| then Got(VVector(arr))
    else
      match DecodeValue(s, elem, w.elems[i])
      case Threw => Threw
      case Got(v) => DecodeElems(s, elem, w, i + 1, arr + [v])
  }

  function DecodeTable(s: Schema, table: Name, w: Wire): Decoded
    requires w.WTable?
    decreases w, 0, |FieldsOf(s, table)| + 1
  {
    DecodeFields(s, FieldsOf(s, table), w, 0, [])
  }

  function DecodeFields(s: Schema, fields: seq<Field>, w: Wire, i: nat, got: seq<Val>): Decoded
    requires w.WTable? && i <= |fields|
    decreases w, 0, |fields| - i
  {
    if i == |fields| then Got(VTable(got))
    else
      match DecodeField(s, fields[i], w)
      case Threw => Threw
      case Got(v) => DecodeFields(s, fields, w, i + 1, got + [v])
  }

  function DecodeField(s: Schema, f: Field, w: Wire): Decoded
    requires w.WTable?
    decreases w, 0, 0
  {
    var entry := SlotAt(w, f.id);
    if f.ty.Union? then
      var tag := SlotAt(w, f.id - 1);
      if entry.Absent? || tag.Absent? then Got(Undefined)
      else if !tag.WInt? || !entry.WTable? then Threw
      else
        match ArmTagged(ArmsOf(s, f.ty.union), tag.raw)
        case None => Got(Undefined)
        case Some(arm) =>
          (match DecodeValue(s, Table(arm.table), entry)
           case Threw => Threw
           case Got(v) => Got(VUnion(arm.variant, v)))
    else if entry.Absent? then Got(AbsentValue(s, f))
    else DecodeValue(s, f.ty, entry)
  }

  // ------------------------------------------------------------------------
  // What a schema guarantees
  // ------------------------------------------------------------------------

  /** A field's vtable slots: a union also owns the slot before its id. */
  function SlotsOf(f: Field): set<int> {
    if f.ty.Union? then {f.id - 1, f.id} else {f.id}
  }

  ghost predicate ElementType(ty: FieldType) {
    !ty.Vector? && !ty.Union?
  }

  ghost predicate FieldOk(f: Field) {
    (f.ty.Union? ==> f.id >= 1) && (f.ty.Vector? ==> ElementType(f.ty.elem))
  }

  ghost predicate FieldsOk(fields: seq<Field>) {
    && (forall i :: 0 <= i < |fields| ==> FieldOk(fields[i]))
    && (forall i, j :: 0 <= i < j < |fields| ==> SlotsOf(fields[i]) !! SlotsOf(fields[j]))
  }

  ghost predicate ArmsOk(arms: seq<Arm>) {
    && (forall i :: 0 <= i < |arms| ==> 1 <= arms[i].tag <= 255)
    && (forall i, j :: 0 <= i < j < |arms| ==> arms[i].variant != arms[j].variant && arms[i].tag != arms[j].tag)
  }

  ghost predicate SchemaOk(s: Schema) {
    && (forall t :: t in s.tables ==> FieldsOk(s.tables[t]))
    && (forall e :: e in s.flags ==> FlagBits.WellFormed(s.flags[e]))
    && (forall u :: u in s.unions ==> ArmsOk(s.unions[u]))
  }

  predicate Optional(ty: FieldType) {
    !IsScalar(ty)
  }

  /**
   A value of the declared TypeScript type: a plain enum's members are numbers
   whatever its width. Only a field may be undefined, and only an optional one.
   */
  predicate Typed(s: Schema, ty: FieldType, v: Val)
    decreases v
  {
    match ty
    case Bool => v.VBool?
    case Int(t) => IsWhole(v) && v == IntValue(t, v.n) && InRange(t, v.n)
    case Enum(e) => v.VNumber? && InRange(EnumType(s, e), v.n)
    case FlagSet(e) => v.VFlags? && forall k :: 0 <= k < |v.names| ==> FlagBits.Known(FlagsOf(s, e), v.names[k])
    case Str => v.VStr?
    case Table(t) =>
      && v.VTable? && |v.fields| == |FieldsOf(s, t)|
      && forall i :: 0 <= i < |v.fields| ==>
           (Optional(FieldsOf(s, t)[i].ty) && v.fields[i].Undefined?) || Typed(s, FieldsOf(s, t)[i].ty, v.fields[i])
    case Union(u) =>
      && v.VUnion?
      && ArmFor(ArmsOf(s, u), v.variant).Some?
      && Typed(s, Table(ArmFor(ArmsOf(s, u), v.variant).value.table), v.value)
    case Vector(e) => v.VVector? && forall i :: 0 <= i < |v.elems| ==> Typed(s, e, v.elems[i])
  }

  /** Flag lists in schema order and without repeats; `widened`, members of 8-byte plain enums as bigints. */
  function Rewritten(s: Schema, ty: FieldType, v: Val, widened: bool): Val
    decreases v
  {
    match ty
    case Enum(e) => if widened && v.VNumber? then IntValue(EnumType(s, e), v.n) else v
    case FlagSet(e) => if v.VFlags? then VFlags(FlagBits.InSchemaOrder(FlagsOf(s, e), v.names)) else v
    case Table(t) =>
      if v.VTable? && |v.fields| == |FieldsOf(s, t)| then
        VTable(seq(|v.fields|, i requires 0 <= i < |v.fields| =>
          Rewritten(s, FieldsOf(s, t)[i].ty, v.fields[i], widened)))
      else v
    case Union(u) =>
      if v.VUnion? && ArmFor(ArmsOf(s, u), v.variant).Some? then
        VUnion(v.variant, Rewritten(s, Table(ArmFor(ArmsOf(s, u), v.variant).value.table), v.value, widened))
      else v
    case Vector(e) =>
      if v.VVector? then
        VVector(seq(|v.elems|, i requires 0 <= i < |v.elems| => Rewritten(s, e, v.elems[i], widened)))
      else v
    case _ => v
  }

  /** What the value should come back as. */
  function Canonical(s: Schema, ty: FieldType, v: Val): Val {
    Rewritten(s, ty, v, false)
  }

  /** What it does come back as. */
  function ReadBack(s: Schema, ty: FieldType, v: Val): Val {
    Rewritten(s, ty, v, true)
  }

  predicate IsWideEnum(s: Schema, ty: FieldType) {
    ty.Enum? && EnumType(s, ty.enum).size == 8
  }

  /** No member of a plain enum 8 bytes wide is in the value. */
  predicate NoWideEnum(s: Schema, ty: FieldType, v: Val)
    decreases v
  {
    match ty
    case Enum(_) => !IsWideEnum(s, ty)
    case Table(t) =>
      v.VTable? && |v.fields| == |FieldsOf(s, t)| ==>
        forall i :: 0 <= i < |v.fields| ==> NoWideEnum(s, FieldsOf(s, t)[i].ty, v.fields[i])
    case Union(u) =>
      v.VUnion? && ArmFor(ArmsOf(s, u), v.variant).Some? ==>
        NoWideEnum(s, Table(ArmFor(ArmsOf(s, u), v.variant).value.table), v.value)
    case Vector(e) => v.VVector? ==> forall i :: 0 <= i < |v.elems| ==> NoWideEnum(s, e, v.elems[i])
    case _ => true
  }

  predicate FieldTyped(s: Schema, ty: FieldType, v: Val) {
    (Optional(ty) && v.Undefined?) || Typed(s, ty, v)
  }

  /** The two agree exactly when the value holds no member of an 8-byte plain enum. */
  lemma {:induction false} ReadBackIsCanonical(s: Schema, ty: FieldType, v: Val)
    requires FieldTyped(s, ty, v)
    ensures ReadBack(s, ty, v) == Canonical(s, ty, v) <==> NoWideEnum(s, ty, v)
    decreases v
  {
    match ty
    case Table(t) =>
      if v.VTable? {
        forall i | 0 <= i < |v.fields|
          ensures ReadBack(s, FieldsOf(s, t)[i].ty, v.fields[i]) == Canonical(s, FieldsOf(s, t)[i].ty, v.fields[i])
                  <==> NoWideEnum(s, FieldsOf(s, t)[i].ty, v.fields[i])
        {
          ReadBackIsCanonical(s, FieldsOf(s, t)[i].ty, v.fields[i]);
        }
        var back, want := ReadBack(s, ty, v).fields, Canonical(s, ty, v).fields;
        assert forall i :: 0 <= i < |v.fields| ==> back[i] == ReadBack(s, FieldsOf(s, t)[i].ty, v.fields[i]);
        assert forall i :: 0 <= i < |v.fields| ==> want[i] == Canonical(s, FieldsOf(s, t)[i].ty, v.fields[i]);
        SameParts(back, want);
      }
    case Union(u) =>
      if v.VUnion? {
        ReadBackIsCanonical(s, Table(ArmFor(ArmsOf(s, u), v.variant).value.table), v.value);
      }
    case Vector(e) =>
      if v.VVector? {
        forall i | 0 <= i < |v.elems|
          ensures ReadBack(s, e, v.elems[i]) == Canonical(s, e, v.elems[i]) <==> NoWideEnum(s, e, v.elems[i])
        {
          ReadBackIsCanonical(s, e, v.elems[i]);
        }
        var back, want := ReadBack(s, ty, v).elems, Canonical(s, ty, v).elems;
        assert forall i :: 0 <= i < |v.elems| ==> back[i] == ReadBack(s, e, v.elems[i]);
        assert forall i :: 0 <= i < |v.elems| ==> want[i] == Canonical(s, e, v.elems[i]);
        SameParts(back, want);
      }
    case _ =>
  }

  lemma SameParts(a: seq<Val>, b: seq<Val>)
    requires |a| == |b|
    ensures VTable(a) == VTable(b) <==> forall i :: 0 <= i < |a| ==> a[i] == b[i]
    ensures VVector(a) == VVector(b) <==> forall i :: 0 <= i < |a| ==> a[i] == b[i]
  {
    if forall i :: 0 <= i < |a| ==> a[i] == b[i] {
      assert a == b;
    }
  }

  // ------------------------------------------------------------------------
  // Round trip
  // ------------------------------------------------------------------------

  lemma SchemaParts(s: Schema, name: Name)
    requires SchemaOk(s)
    ensures FieldsOk(FieldsOf(s, name)) && FlagBits.WellFormed(FlagsOf(s, name)) && ArmsOk(ArmsOf(s, name))
  {
  }

  lemma {:induction false} ArmByTag(arms: seq<Arm>, variant: Name)
    requires ArmsOk(arms) && ArmFor(arms, variant).Some?
    ensures var arm := ArmFor(arms, variant).value;
      arm.variant == variant && 1 <= arm.tag <= 255 && ArmTagged(arms, arm.tag) == Some(arm) && arm in arms
  {
    if arms[0].variant != variant {
      ArmByTag(arms[1..], variant);
      var arm := ArmFor(arms[1..], variant).value;
      var i :| 0 <= i < |arms[1..]| && arms[1..][i] == arm;
      assert arms[i + 1] == arm;
    }
  }

  /** What a present scalar or child decodes to. */
  lemma {:induction false} ValueComesBack(s: Schema, ty: FieldType, v: Val)
    requires SchemaOk(s) && Typed(s, ty, v) && !ty.Union? && (ty.Vector? ==> ElementType(ty.elem))
    ensures !EncodeValue(s, ty, v).Absent?
    ensures DecodeValue(s, ty, EncodeValue(s, ty, v)) == Got(ReadBack(s, ty, v))
    decreases v, 1, 0
  {
    match ty
    case Int(t) => ReadInvertsWrite(t, v.n);
    case Enum(e) => ReadInvertsWrite(EnumType(s, e), v.n);
    case FlagSet(e) =>
      SchemaParts(s, e);
      FlagBits.DecodeInvertsEncode(FlagsOf(s, e), v.names);
    case Table(t) => TableComesBack(s, t, v);
    case Vector(e) => VectorComesBack(s, e, v);
    case _ =>
  }

  /** A vector comes back exactly when its elements hold no member of an 8-byte plain enum. */
  lemma VectorRoundTrip(s: Schema, elem: FieldType, v: Val)
    requires SchemaOk(s) && Typed(s, Vector(elem), v) && ElementType(elem)
    ensures DecodeValue(s, Vector(elem), EncodeValue(s, Vector(elem), v)) == Got(Canonical(s, Vector(elem), v))
            <==> NoWideEnum(s, Vector(elem), v)
  {
    VectorComesBack(s, elem, v);
    ReadBackIsCanonical(s, Vector(elem), v);
  }

  lemma {:induction false} VectorComesBack(s: Schema, elem: FieldType, v: Val)
    requires SchemaOk(s) && Typed(s, Vector(elem), v) && ElementType(elem)
    ensures DecodeValue(s, Vector(elem), EncodeValue(s, Vector(elem), v)) == Got(ReadBack(s, Vector(elem), v))
    decreases v, 0, 0
  {
    var w := EncodeValue(s, Vector(elem), v);
    var want := ReadBack(s, Vector(elem), v).elems;
    forall i | 0 <= i < |v.elems| ensures DecodeValue(s, elem, w.elems[i]) == Got(want[i]) {
      ValueComesBack(s, elem, v.elems[i]);
    }
    ElemsDecode(s, elem, w, 0, [], want);
  }

  lemma {:induction false} ElemsDecode(s: Schema, elem: FieldType, w: Wire, i: nat, arr: seq<Val>, want: seq<Val>)
    requires w.WVector? && i <= |w.elems| == |want| && arr == want[..i]
    requires forall k :: 0 <= k < |want| ==> DecodeValue(s, elem, w.elems[k]) == Got(want[k])
    ensures DecodeElems(s, elem, w, i, arr) == Got(VVector(want))
    decreases |w.elems| - i
  {
    if i < |want| {
      assert want[..i + 1] == want[..i] + [want[i]];
      ElemsDecode(s, elem, w, i + 1, arr + [want[i]], want);
    } else {
      assert want[..i] == want;
    }
  }

  /**
   Decoding an encoded table gives the value back exactly when no member of an
   8-byte plain enum is in it; such a member, and only that, comes back as a
   bigint.
   */
  lemma TableRoundTrip(s: Schema, table: Name, v: Val)
    requires SchemaOk(s) && Typed(s, Table(table), v)
    ensures EncodeTable(s, table, v).WTable?
    ensures DecodeTable(s, table, EncodeTable(s, table, v)) == Got(Canonical(s, Table(table), v))
            <==> NoWideEnum(s, Table(table), v)
    ensures DecodeTable(s, table, EncodeTable(s, table, v)) == Got(ReadBack(s, Table(table), v))
  {
    TableComesBack(s, table, v);
    ReadBackIsCanonical(s, Table(table), v);
  }

  lemma {:induction false} TableComesBack(s: Schema, table: Name, v: Val)
    requires SchemaOk(s) && Typed(s, Table(table), v)
    ensures EncodeTable(s, table, v).WTable?
    ensures DecodeTable(s, table, EncodeTable(s, table, v)) == Got(ReadBack(s, Table(table), v))
    decreases v, 0, 0
  {
    var fields := FieldsOf(s, table);
    var w := EncodeTable(s, table, v);
    var want := ReadBack(s, Table(table), v).fields;
    SchemaParts(s, table);
    forall i | 0 <= i < |fields| ensures DecodeField(s, fields[i], w) == Got(want[i]) {
      FieldsLand(s, fields, v, 0, EmptySlots(SlotCount(fields)), i);
      FieldComesBack(s, fields[i], v.fields[i], w);
    }
    FieldsDecode(s, fields, w, 0, [], want);
  }

  lemma {:induction false} FieldsDecode(s: Schema, fields: seq<Field>, w: Wire, i: nat, got: seq<Val>, want: seq<Val>)
    requires w.WTable? && i <= |fields| == |want| && got == want[..i]
    requires forall k :: 0 <= k < |want| ==> DecodeField(s, fields[k], w) == Got(want[k])
    ensures DecodeFields(s, fields, w, i, got) == Got(VTable(want))
    decreases |fields| - i
  {
    if i < |want| {
      assert want[..i + 1] == want[..i] + [want[i]];
      FieldsDecode(s, fields, w, i + 1, got + [want[i]], want);
    } else {
      assert want[..i] == want;
    }
  }

  /** A field's own slots hold what it adds to an empty table, whatever the other fields add. */
  ghost predicate Landed(s: Schema, f: Field, v: Val, slots: seq<Wire>) {
    forall k :: k in SlotsOf(f) && 0 <= k < |slots| ==> slots[k] == AddField(s, f, v, EmptySlots(|slots|))[k]
  }

  lemma AddFieldIsLocal(s: Schema, f: Field, v: Val, slots: seq<Wire>, k: nat)
    requires k < |slots|
    ensures k !in SlotsOf(f) ==> AddField(s, f, v, slots)[k] == slots[k]
    ensures slots[k] == Absent ==> AddField(s, f, v, slots)[k] == AddField(s, f, v, EmptySlots(|slots|))[k]
  {
  }

  lemma {:induction false} OthersKeep(s: Schema, fields: seq<Field>, v: Val, i: nat, slots: seq<Wire>, k: nat)
    requires v.VTable? && i <= |fields| == |v.fields| && k < |slots|
    requires forall j :: i <= j < |fields| ==> k !in SlotsOf(fields[j])
    ensures AddFields(s, fields, v, i, slots)[k] == slots[k]
    decreases |fields| - i
  {
    if i < |fields| {
      AddFieldIsLocal(s, fields[i], v.fields[i], slots, k);
      OthersKeep(s, fields, v, i + 1, AddField(s, fields[i], v.fields[i], slots), k);
    }
  }

  lemma {:induction false} SlotLands(
    s: Schema, fields: seq<Field>, v: Val, i: nat, slots: seq<Wire>, j: nat, k: nat)
    requires v.VTable? && i <= j < |fields| == |v.fields| && k < |slots| && FieldsOk(fields)
    requires k in SlotsOf(fields[j]) && slots[k] == Absent
    ensures AddFields(s, fields, v, i, slots)[k] == AddField(s, fields[j], v.fields[j], EmptySlots(|slots|))[k]
    decreases |fields| - i
  {
    var next := AddField(s, fields[i], v.fields[i], slots);
    AddFieldIsLocal(s, fields[i], v.fields[i], slots, k);
    if i == j {
      forall m | i + 1 <= m < |fields| ensures k !in SlotsOf(fields[m]) {
        assert SlotsOf(fields[i]) !! SlotsOf(fields[m]);
      }
      OthersKeep(s, fields, v, i + 1, next, k);
    } else {
      assert SlotsOf(fields[i]) !! SlotsOf(fields[j]);
      SlotLands(s, fields, v, i + 1, next, j, k);
    }
  }

  lemma FieldsLand(s: Schema, fields: seq<Field>, v: Val, i: nat, slots: seq<Wire>, j: nat)
    requires v.VTable? && i <= j < |fields| == |v.fields| && FieldsOk(fields)
    requires forall k :: 0 <= k < |slots| ==> slots[k] == Absent
    ensures Landed(s, fields[j], v.fields[j], AddFields(s, fields, v, i, slots))
  {
    forall k | k in SlotsOf(fields[j]) && 0 <= k < |slots|
      ensures AddFields(s, fields, v, i, slots)[k] == AddField(s, fields[j], v.fields[j], EmptySlots(|slots|))[k]
    {
      SlotLands(s, fields, v, i, slots, j, k);
    }
  }

  /** A field comes back from its own slots, exactly when it holds no member of an 8-byte plain enum. */
  lemma FieldRoundTrip(s: Schema, f: Field, v: Val, w: Wire)
    requires SchemaOk(s) && FieldOk(f) && w.WTable? && f.id < |w.slots| && Landed(s, f, v, w.slots)
    requires FieldTyped(s, f.ty, v)
    ensures DecodeField(s, f, w) == Got(Canonical(s, f.ty, v)) <==> NoWideEnum(s, f.ty, v)
  {
    FieldComesBack(s, f, v, w);
    ReadBackIsCanonical(s, f.ty, v);
  }

  lemma {:induction false} FieldComesBack(s: Schema, f: Field, v: Val, w: Wire)
    requires SchemaOk(s) && FieldOk(f) && w.WTable? && f.id < |w.slots| && Landed(s, f, v, w.slots)
    requires FieldTyped(s, f.ty, v)
    ensures DecodeField(s, f, w) == Got(ReadBack(s, f.ty, v))
    decreases v, 2, 0
  {
    assert f.id in SlotsOf(f);
    if f.ty.Union? {
      UnionComesBack(s, f, v, w);
    } else {
      if !v.Undefined? {
        ValueComesBack(s, f.ty, v);
      }
      if IsScalar(f.ty) && LeftOut(s, f, v) {
        LeftOutIsTheDefault(s, f, v);
      }
    }
  }

  lemma LeftOutIsTheDefault(s: Schema, f: Field, v: Val)
    requires SchemaOk(s) && IsScalar(f.ty) && Typed(s, f.ty, v) && LeftOut(s, f, v)
    ensures AbsentValue(s, f) == Canonical(s, f.ty, v) == ReadBack(s, f.ty, v)
  {
    if f.ty.FlagSet? {
      SchemaParts(s, f.ty.enum);
      FlagBits.DecodeInvertsEncode(FlagsOf(s, f.ty.enum), v.names);
    }
  }

  lemma {:induction false} FirstArmIsFound(arms: seq<Arm>, k: nat)
    requires k < |arms| && forall j :: 0 <= j < k ==> arms[j].variant != arms[k].variant
    ensures ArmFor(arms, arms[k].variant) == Some(arms[k])
  {
    if k > 0 {
      assert arms[1..][k - 1] == arms[k];
      assert forall j :: 0 <= j < k - 1 ==> arms[1..][j] == arms[j + 1];
      FirstArmIsFound(arms[1..], k - 1);
    }
  }

  /** A member of a union the schema declares: its value is of the arm's table, its tag goes into the slot before its own. */
  lemma UnionsWriteTheirTag(s: Schema, f: Field, k: nat, value: Val, slots: seq<Wire>)
    requires f.ty.Union? && f.ty.union in s.unions && k < |s.unions[f.ty.union]| && 1 <= f.id < |slots|
    requires var arms := s.unions[f.ty.union];
             1 <= arms[k].tag <= 255 && forall j :: 0 <= j < k ==> arms[j].variant != arms[k].variant
    ensures var arm := s.unions[f.ty.union][k];
            var v := VUnion(arm.variant, value);
      && (Typed(s, f.ty, v) <==> Typed(s, Table(arm.table), value))
      && AddField(s, f, v, slots)[f.id - 1] == WInt(arm.tag)
      && AddField(s, f, v, slots)[f.id] == EncodeValue(s, Table(arm.table), value)
  {
    FirstArmIsFound(s.unions[f.ty.union], k);
  }

  lemma {:induction false} FirstTagIsFound(arms: seq<Arm>, k: nat, tag: nat)
    requires k <= |arms| && (forall j :: 0 <= j < k ==> arms[j].tag != tag) && (k < |arms| ==> arms[k].tag == tag)
    ensures ArmTagged(arms, tag) == if k < |arms| then Some(arms[k]) else None
  {
    if k > 0 {
      var rest := arms[1..];
      assert forall j :: 0 <= j < k - 1 ==> rest[j] == arms[j + 1];
      assert k < |arms| ==> rest[k - 1] == arms[k];
      FirstTagIsFound(rest, k - 1, tag);
    }
  }

  /** A union is absent unless both its slots are there and the tag is one of the schema's, as a newer variant's is not. */
  lemma UnknownTagsAreAbsent(s: Schema, f: Field, w: Wire, tag: nat)
    requires f.ty.Union? && f.ty.union in s.unions && w.WTable? && 1 <= f.id
    ensures SlotAt(w, f.id).Absent? || SlotAt(w, f.id - 1).Absent? ==> DecodeField(s, f, w) == Got(Undefined)
    ensures SlotAt(w, f.id).WTable? && SlotAt(w, f.id - 1) == WInt(tag)
            && (forall k :: 0 <= k < |s.unions[f.ty.union]| ==> s.unions[f.ty.union][k].tag != tag) ==>
              DecodeField(s, f, w) == Got(Undefined)
  {
    var arms := s.unions[f.ty.union];
    if forall k :: 0 <= k < |arms| ==> arms[k].tag != tag {
      FirstTagIsFound(arms, |arms|, tag);
    }
  }

  /** Else it is the first arm of the tag around the decoded table, or the table's throw. */
  lemma UnionsAreReadByTag(s: Schema, f: Field, w: Wire, k: nat)
    requires f.ty.Union? && f.ty.union in s.unions && w.WTable? && 1 <= f.id && k < |s.unions[f.ty.union]|
    requires forall j :: 0 <= j < k ==> s.unions[f.ty.union][j].tag != s.unions[f.ty.union][k].tag
    requires SlotAt(w, f.id).WTable? && SlotAt(w, f.id - 1) == WInt(s.unions[f.ty.union][k].tag)
    ensures var arm := s.unions[f.ty.union][k];
      DecodeField(s, f, w) ==
      match DecodeTable(s, arm.table, SlotAt(w, f.id))
      case Threw => Threw
      case Got(v) => Got(VUnion(arm.variant, v))
  {
    var arm := s.unions[f.ty.union][k];
    FirstTagIsFound(s.unions[f.ty.union], k, arm.tag);
    assert DecodeValue(s, Table(arm.table), SlotAt(w, f.id)) == DecodeTable(s, arm.table, SlotAt(w, f.id));
  }

  /** A union comes back as its variant and its value, exactly when the value does. */
  lemma UnionRoundTrip(s: Schema, f: Field, v: Val, w: Wire)
    requires SchemaOk(s) && f.ty.Union? && f.id >= 1 && w.WTable? && f.id < |w.slots| && Landed(s, f, v, w.slots)
    requires v.Undefined? || Typed(s, f.ty, v)
    ensures DecodeField(s, f, w) == Got(Canonical(s, f.ty, v)) <==> NoWideEnum(s, f.ty, v)
  {
    UnionComesBack(s, f, v, w);
    ReadBackIsCanonical(s, f.ty, v);
  }

  lemma {:induction false} UnionComesBack(s: Schema, f: Field, v: Val, w: Wire)
    requires SchemaOk(s) && f.ty.Union? && f.id >= 1 && w.WTable? && f.id < |w.slots| && Landed(s, f, v, w.slots)
    requires v.Undefined? || Typed(s, f.ty, v)
    ensures DecodeField(s, f, w) == Got(ReadBack(s, f.ty, v))
    decreases v, 1, 0
  {
    assert f.id in SlotsOf(f) && f.id - 1 in SlotsOf(f);
    if v.VUnion? {
      SchemaParts(s, f.ty.union);
      ArmByTag(ArmsOf(s, f.ty.union), v.variant);
      var arm := ArmFor(ArmsOf(s, f.ty.union), v.variant).value;
      ValueComesBack(s, Table(arm.table), v.value);
      TableComesBack(s, arm.table, v.value);
    }
  }

  /** A field that is absent decodes to a value of its declared type, unless it is a plain enum 8 bytes wide. */
  lemma AbsentIsTyped(s: Schema, f: Field)
    requires SchemaOk(s)
    requires f.ty.Int? ==> InRange(f.ty.t, IntDefault(s, f))
    requires f.ty.Enum? ==> InRange(EnumType(s, f.ty.enum), IntDefault(s, f))
    ensures FieldTyped(s, f.ty, AbsentValue(s, f)) <==> !IsWideEnum(s, f.ty)
  {
    if f.ty.FlagSet? {
      NamesInAreKnown(FlagsOf(s, f.ty.enum), EncodeDefault(s, f).bits);
    }
  }

  lemma {:induction false} NamesInAreKnown(flags: FlagBits.Flags, bits: FlagBits.Bits)
    ensures forall k :: 0 <= k < |FlagBits.NamesIn(flags, bits)| ==> FlagBits.Known(flags, FlagBits.NamesIn(flags, bits)[k])
  {
    if flags != [] {
      NamesInAreKnown(flags[1..], bits);
      forall k | 0 <= k < |FlagBits.NamesIn(flags, bits)|
        ensures FlagBits.Known(flags, FlagBits.NamesIn(flags, bits)[k])
      {
        var name := FlagBits.NamesIn(flags, bits)[k];
        if name != flags[0].name {
          assert name in FlagBits.NamesIn(flags[1..], bits);
          var i :| 0 <= i < |flags[1..]| && flags[1..][i].name == name;
          assert flags[i + 1].name == name;
        }
      }
    }
  }

  // ------------------------------------------------------------------------
  // Declared defaults
  // ------------------------------------------------------------------------

  /** The table has no entry for the field. */
  predicate HasNoEntry(w: Wire, f: Field) {
    w.WTable? && (f.id < |w.slots| ==> w.slots[f.id] == Absent)
  }

  /** Encoding the value leaves an empty slot empty. */
  predicate StaysEmpty(s: Schema, f: Field, v: Val, slots: seq<Wire>)
    requires f.id < |slots|
  {
    AddField(s, f, v, slots)[f.id] == Absent
  }

  lemma EmptyIffLeftOut(s: Schema, f: Field, v: Val, slots: seq<Wire>)
    requires IsScalar(f.ty) && Typed(s, f.ty, v) && f.id < |slots| && slots[f.id] == Absent
    ensures StaysEmpty(s, f, v, slots) <==> LeftOut(s, f, v)
  {
    var w := EncodeValue(s, f.ty, v);
    assert !w.Absent? && !f.ty.Union?;
    assert AddField(s, f, v, slots) == if LeftOut(s, f, v) then slots else Put(slots, f.id, w);
  }

  /**
   An integer field declared `= n`, or with no default and `n` zero: without an entry it
   decodes to `n`, as a bigint at 8 bytes, and just `n` is left out.
   */
  lemma IntDefaults(s: Schema, f: Field, n: int, w: Wire, v: Val, slots: seq<Wire>)
    requires f.ty.Int? && (f.default == Some(IntLiteral(n)) || (f.default == None && n == 0))
    requires HasNoEntry(w, f) && Typed(s, f.ty, v) && f.id < |slots| && slots[f.id] == Absent
    ensures DecodeField(s, f, w) == Got(if f.ty.t.size == 8 then VBigInt(n) else VNumber(n))
    ensures StaysEmpty(s, f, v, slots) <==> v.n == n
  {
    EmptyIffLeftOut(s, f, v, slots);
  }

  /** The first variant of the name has the value. */
  predicate FirstVariant(variants: seq<(Name, int)>, i: nat, name: Name, k: int) {
    i < |variants| && variants[i] == (name, k) && forall j :: 0 <= j < i ==> variants[j].0 != name
  }

  lemma {:induction false} LookupFindsFirst(variants: seq<(Name, int)>, i: nat, name: Name, k: int)
    requires FirstVariant(variants, i, name, k)
    ensures Lookup(variants, name) == k
  {
    if i > 0 {
      assert variants[0].0 != name;
      assert FirstVariant(variants[1..], i - 1, name, k);
      LookupFindsFirst(variants[1..], i - 1, name, k);
    }
  }

  predicate NoVariant(variants: seq<(Name, int)>, name: Name) {
    forall j :: 0 <= j < |variants| ==> variants[j].0 != name
  }

  lemma {:induction false} LookupFindsNone(variants: seq<(Name, int)>, name: Name)
    requires NoVariant(variants, name)
    ensures Lookup(variants, name) == 0
  {
    if variants != [] {
      assert variants[0].0 != name;
      assert NoVariant(variants[1..], name);
      LookupFindsNone(variants[1..], name);
    }
  }

  /**
   A plain enum field declared `= name`, or with no default or an unknown one and
   `k` zero: without an entry it decodes to the value `k` of the first variant so named, and just `k` is left
   out, unless the enum is 8 bytes wide: then nothing is.
   */
  lemma EnumDefaults(s: Schema, f: Field, i: nat, name: Name, k: int, w: Wire, v: Val, slots: seq<Wire>)
    requires f.ty.Enum? && f.ty.enum in s.enums
    requires || (f.default == Some(Variant(name)) && FirstVariant(s.enums[f.ty.enum].variants, i, name, k))
             || (f.default == Some(Variant(name)) && NoVariant(s.enums[f.ty.enum].variants, name) && k == 0)
             || (f.default == None && k == 0)
    requires HasNoEntry(w, f) && Typed(s, f.ty, v) && f.id < |slots| && slots[f.id] == Absent
    ensures var wide := s.enums[f.ty.enum].underlying.size == 8;
      && DecodeField(s, f, w) == Got(if wide then VBigInt(k) else VNumber(k))
      && (StaysEmpty(s, f, v, slots) <==> !wide && v.n == k)
  {
    EmptyIffLeftOut(s, f, v, slots);
    if f.default.Some? {
      var variants := s.enums[f.ty.enum].variants;
      if NoVariant(variants, name) {
        LookupFindsNone(variants, name);
      } else {
        LookupFindsFirst(variants, i, name, k);
      }
    }
  }

  /** A boolean field declared `= true`, or anything else: without an entry it decodes to that, and just that is left out. */
  lemma BoolDefaults(s: Schema, f: Field, w: Wire, v: Val, slots: seq<Wire>)
    requires f.ty.Bool? && HasNoEntry(w, f) && Typed(s, f.ty, v) && f.id < |slots| && slots[f.id] == Absent
    ensures f.default == Some(BoolLiteral(true)) ==>
              DecodeField(s, f, w) == Got(VBool(true)) && (StaysEmpty(s, f, v, slots) <==> v.b)
    ensures f.default == Some(BoolLiteral(false)) || f.default == None ==>
              DecodeField(s, f, w) == Got(VBool(false)) && (StaysEmpty(s, f, v, slots) <==> !v.b)
  {
    EmptyIffLeftOut(s, f, v, slots);
  }

  /**
   A flags field declared `= name`, or with no default: without an entry it decodes
   to that one flag, or to none, and just the lists of it alone, repeats allowed, or
   the empty list are left out.
   */
  lemma FlagDefaults(s: Schema, f: Field, i: nat, w: Wire, v: Val, slots: seq<Wire>)
    requires SchemaOk(s) && f.ty.FlagSet? && f.ty.enum in s.flags
    requires f.default.Some? ==>
               f.default.value.Variant? && i < |s.flags[f.ty.enum]|
               && s.flags[f.ty.enum][i].name == f.default.value.variant
    requires HasNoEntry(w, f) && Typed(s, f.ty, v) && f.id < |slots| && slots[f.id] == Absent
    ensures f.default == None ==>
              DecodeField(s, f, w) == Got(VFlags([])) && (StaysEmpty(s, f, v, slots) <==> v.names == [])
    ensures f.default.Some? ==>
              && DecodeField(s, f, w) == Got(VFlags([f.default.value.variant]))
              && (StaysEmpty(s, f, v, slots) <==>
                    v.names != [] && forall k :: 0 <= k < |v.names| ==> v.names[k] == f.default.value.variant)
  {
    var flags := s.flags[f.ty.enum];
    EmptyIffLeftOut(s, f, v, slots);
    if f.default.Some? {
      FlagBits.OneFlagAlone(flags, i, v.names);
    } else {
      FlagBits.NoFlagAlone(flags, v.names);
    }
  }

  /** The schema `enum E: ulong { A } table T { e: E; }`. */
  const WIDE_ENUM := Schema(
    map["T" := [Field("e", Enum("E"), 0, None)]],
    map["E" := EnumDef([("A", 0)], IntType(8, false))],
    map[],
    map[])

  lemma WideEnumSchema()
    ensures SchemaOk(WIDE_ENUM) && FieldsOf(WIDE_ENUM, "T") == [Field("e", Enum("E"), 0, None)]
    ensures EnumType(WIDE_ENUM, "E") == IntType(8, false)
  {
  }

  /** Under it a number encoded comes back as a bigint. */
  lemma WideEnumDoesNotComeBack(n: nat)
    requires n < Modulus(8)
    ensures Typed(WIDE_ENUM, Table("T"), VTable([VNumber(n)]))
    ensures DecodeTable(WIDE_ENUM, "T", EncodeTable(WIDE_ENUM, "T", VTable([VNumber(n)]))) == Got(VTable([VBigInt(n)]))
  {
    var s, v := WIDE_ENUM, VTable([VNumber(n)]);
    WideEnumSchema();
    assert Typed(s, Enum("E"), v.fields[0]);
    TableComesBack(s, "T", v);
    var back := ReadBack(s, Table("T"), v).fields;
    assert back[0] == ReadBack(s, Enum("E"), VNumber(n)) == VBigInt(n);
    assert back == [VBigInt(n)];
  }

  /** And a member that was left out comes back as one. */
  lemma AbsentWideEnumIsABigInt()
    ensures DecodeTable(WIDE_ENUM, "T", WTable([])) == Got(VTable([VBigInt(0)]))
  {
    WideEnumSchema();
    var fields := FieldsOf(WIDE_ENUM, "T");
    assert DecodeField(WIDE_ENUM, fields[0], WTable([])) == Got(VBigInt(0));
    FieldsDecode(WIDE_ENUM, fields, WTable([]), 0, [], [VBigInt(0)]);
  }

  /** Every slot a table's fields use lies below the `startObject` count, and the count is no larger than needed. */
  lemma EverySlotIsAllocated(s: Schema, table: Name)
    requires SchemaOk(s)
    ensures var fields := FieldsOf(s, table);
      && (forall i, k :: 0 <= i < |fields| && k in SlotsOf(fields[i]) ==> 0 <= k < SlotCount(fields))
      && (fields != [] ==> exists i :: 0 <= i < |fields| && fields[i].id + 1 == SlotCount(fields))
  {
    SchemaParts(s, table);
    LargestIdCounts(FieldsOf(s, table));
  }

  lemma {:induction false} LargestIdCounts(fields: seq<Field>)
    ensures fields != [] ==> exists i :: 0 <= i < |fields| && fields[i].id + 1 == SlotCount(fields)
  {
    if fields != [] {
      if fields[0].id + 1 > SlotCount(fields[1..]) {
        assert fields[0].id + 1 == SlotCount(fields);
      } else {
        LargestIdCounts(fields[1..]);
        var i :| 0 <= i < |fields[1..]| && fields[1..][i].id + 1 == SlotCount(fields[1..]);
        assert fields[i + 1].id + 1 == SlotCount(fields);
      }
    }
  }
}
