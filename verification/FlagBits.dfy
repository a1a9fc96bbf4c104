/**
 The `encode{Name}` and `decode{Name}` helpers emitted for a `bit_flags` enum:
 a list of flag names against the OR of their masks.
 */
module FlagBits {
  import opened Wrappers

  type Name = string

  /** An unsigned integer as the set of positions of its one-bits: OR is union, AND intersection, AND NOT difference. */
  type Bits = set<nat>

  /** A flag and its mask, in declaration order. */
  datatype Flag = Flag(name: Name, mask: Bits)

  type Flags = seq<Flag>

  /** Masks are non-empty and pairwise disjoint, names distinct: `1 << position` at distinct positions. */
  ghost predicate WellFormed(flags: Flags) {
    && (forall i :: 0 <= i < |flags| ==> flags[i].mask != {})
    && (forall i, j :: 0 <= i < j < |flags| ==> flags[i].name != flags[j].name)
    && (forall i, j :: 0 <= i < j < |flags| ==> flags[i].mask * flags[j].mask == {})
  }

  function MaskOf(flags: Flags, name: Name): Bits {
    if flags == [] then {} else if flags[0].name == name then flags[0].mask else MaskOf(flags[1..], name)
  }

  predicate Known(flags: Flags, name: Name) {
    exists i :: 0 <= i < |flags| && flags[i].name == name
  }

  /** `names.reduce((bits, n) => bits | FLAGS[n], 0n)` */
  function Encode(flags: Flags, names: seq<Name>): Bits {
    if names == [] then {} else Encode(flags, names[..|names| - 1]) + MaskOf(flags, names[|names| - 1])
  }

  method EncodeLoop(flags: Flags, names: seq<Name>) returns (bits: Bits)
    ensures bits == Encode(flags, names)
  {
    bits := {};
    for i := 0 to |names|
      invariant bits == Encode(flags, names[..i])
    {
      assert names[..i + 1][..i] == names[..i];
      bits := bits + MaskOf(flags, names[i]);
    }
    assert names[..|names|] == names;
  }

  /** The names whose mask meets `bits`, in declaration order. */
  function NamesIn(flags: Flags, bits: Bits): seq<Name> {
    if flags == [] then []
    else (if bits * flags[0].mask != {} then [flags[0].name] else []) + NamesIn(flags[1..], bits)
  }

  /** `bits` without every mask. */
  function Unknown(flags: Flags, bits: Bits): Bits {
    if flags == [] then bits else Unknown(flags[1..], bits - flags[0].mask)
  }

  /** Absent when a bit has no name, which the helper throws on. */
  function Decode(flags: Flags, bits: Bits): Option<seq<Name>> {
    if Unknown(flags, bits) != {} then None else Some(NamesIn(flags, bits))
  }

  /** The flags of a list in declaration order, each once. */
  function InSchemaOrder(flags: Flags, names: seq<Name>): seq<Name> {
    if flags == [] then []
    else (if flags[0].name in names then [flags[0].name] else []) + InSchemaOrder(flags[1..], names)
  }

  lemma {:induction false} MaskOfFlag(flags: Flags, i: nat)
    requires WellFormed(flags) && i < |flags|
    ensures MaskOf(flags, flags[i].name) == flags[i].mask
  {
    if i > 0 {
      MaskOfFlag(flags[1..], i - 1);
    }
  }

  /** A flag's bit is set exactly when the flag is in the list. */
  lemma {:induction false} EncodeSetsExactly(flags: Flags, names: seq<Name>, i: nat)
    requires WellFormed(flags) && i < |flags|
    requires forall k :: 0 <= k < |names| ==> Known(flags, names[k])
    ensures Encode(flags, names) * flags[i].mask != {} <==> flags[i].name in names
  {
    if names != [] {
      var front, last := names[..|names| - 1], names[|names| - 1];
      EncodeSetsExactly(flags, front, i);
      assert Known(flags, last);
      var j :| 0 <= j < |flags| && flags[j].name == last;
      MaskOfFlag(flags, j);
      MasksMeetOnlyThemselves(flags, i, j);
      assert (Encode(flags, front) + flags[j].mask) * flags[i].mask
          == Encode(flags, front) * flags[i].mask + flags[j].mask * flags[i].mask;
      assert names == front + [last];
    }
  }

  lemma MasksMeetOnlyThemselves(flags: Flags, i: nat, j: nat)
    requires WellFormed(flags) && i < |flags| && j < |flags|
    ensures flags[j].mask * flags[i].mask != {} <==> i == j
  {
  }

  lemma {:induction false} ShrinkingIsKnown(flags: Flags, bits: Bits)
    requires forall b :: b in bits ==> exists i :: 0 <= i < |flags| && b in flags[i].mask
    ensures Unknown(flags, bits) == {}
  {
    if flags != [] {
      forall b | b in bits - flags[0].mask ensures exists i :: 0 <= i < |flags[1..]| && b in flags[1..][i].mask {
        var i :| 0 <= i < |flags| && b in flags[i].mask;
        assert flags[1..][i - 1] == flags[i];
      }
      ShrinkingIsKnown(flags[1..], bits - flags[0].mask);
    }
  }

  lemma {:induction false} EncodedBitsAreMasks(flags: Flags, names: seq<Name>, b: nat)
    requires WellFormed(flags) && b in Encode(flags, names)
    requires forall k :: 0 <= k < |names| ==> Known(flags, names[k])
    ensures exists i :: 0 <= i < |flags| && b in flags[i].mask
  {
    var front, last := names[..|names| - 1], names[|names| - 1];
    if b in Encode(flags, front) {
      EncodedBitsAreMasks(flags, front, b);
    } else {
      assert Known(flags, last);
      var j :| 0 <= j < |flags| && flags[j].name == last;
      MaskOfFlag(flags, j);
    }
  }

  lemma {:induction false} SameChoices(flags: Flags, names: seq<Name>, bits: Bits)
    requires forall i :: 0 <= i < |flags| ==> (bits * flags[i].mask != {} <==> flags[i].name in names)
    ensures NamesIn(flags, bits) == InSchemaOrder(flags, names)
  {
    if flags != [] {
      SameChoices(flags[1..], names, bits);
    }
  }

  /** Decoding an encoded list never throws and gives the list in schema order without repeats. */
  lemma DecodeInvertsEncode(flags: Flags, names: seq<Name>)
    requires WellFormed(flags) && forall k :: 0 <= k < |names| ==> Known(flags, names[k])
    ensures NamesIn(flags, Encode(flags, names)) == InSchemaOrder(flags, names)
    ensures Decode(flags, Encode(flags, names)) == Some(InSchemaOrder(flags, names))
  {
    var bits := Encode(flags, names);
    forall i | 0 <= i < |flags| ensures bits * flags[i].mask != {} <==> flags[i].name in names {
      EncodeSetsExactly(flags, names, i);
    }
    SameChoices(flags, names, bits);
    forall b | b in bits ensures exists i :: 0 <= i < |flags| && b in flags[i].mask {
      EncodedBitsAreMasks(flags, names, b);
    }
    ShrinkingIsKnown(flags, bits);
  }

  lemma {:induction false} UnknownIsTheUnnamed(flags: Flags, bits: Bits, b: nat)
    ensures b in Unknown(flags, bits) <==> b in bits && forall i :: 0 <= i < |flags| ==> b !in flags[i].mask
  {
    if flags != [] {
      UnknownIsTheUnnamed(flags[1..], bits - flags[0].mask, b);
      assert forall i :: 1 <= i < |flags| ==> flags[1..][i - 1] == flags[i];
    }
  }

  /** Decoding throws exactly on a bit the schema does not name. */
  lemma DecodeThrowsOnUnnamedBits(flags: Flags, bits: Bits)
    ensures Decode(flags, bits).None? <==> exists b :: b in bits && forall i :: 0 <= i < |flags| ==> b !in flags[i].mask
  {
    if b :| b in bits && forall i :: 0 <= i < |flags| ==> b !in flags[i].mask {
      UnknownIsTheUnnamed(flags, bits, b);
    }
    if Unknown(flags, bits) != {} {
      var b :| b in Unknown(flags, bits);
      UnknownIsTheUnnamed(flags, bits, b);
    }
  }

  /** The mask of one flag names that flag, and only lists of it alone encode to it. */
  lemma OneFlagAlone(flags: Flags, i: nat, names: seq<Name>)
    requires WellFormed(flags) && i < |flags| && forall k :: 0 <= k < |names| ==> Known(flags, names[k])
    ensures MaskOf(flags, flags[i].name) == flags[i].mask && NamesIn(flags, flags[i].mask) == [flags[i].name]
    ensures Encode(flags, names) == flags[i].mask <==>
            names != [] && forall k :: 0 <= k < |names| ==> names[k] == flags[i].name
  {
    MaskOfFlag(flags, i);
    NamesInMask(flags, i, 0);
    assert flags[0..] == flags;
    if names != [] && forall k :: 0 <= k < |names| ==> names[k] == flags[i].name {
      AllTheSame(flags, i, names);
    } else if Encode(flags, names) == flags[i].mask {
      if k :| 0 <= k < |names| && names[k] != flags[i].name {
        assert Known(flags, names[k]);
        var j :| 0 <= j < |flags| && flags[j].name == names[k];
        EncodeSetsExactly(flags, names, j);
        MasksMeetOnlyThemselves(flags, j, i);
      }
    }
  }

  lemma {:induction false} AllTheSame(flags: Flags, i: nat, names: seq<Name>)
    requires WellFormed(flags) && i < |flags|
    requires names != [] && forall k :: 0 <= k < |names| ==> names[k] == flags[i].name
    ensures Encode(flags, names) == flags[i].mask
  {
    MaskOfFlag(flags, i);
    if |names| > 1 {
      AllTheSame(flags, i, names[..|names| - 1]);
    } else {
      assert names[..0] == [];
    }
  }

  lemma {:induction false} NamesInMask(flags: Flags, i: nat, from: nat)
    requires WellFormed(flags) && i < |flags| && from <= |flags|
    ensures NamesIn(flags[from..], flags[i].mask) == if from <= i then [flags[i].name] else []
    decreases |flags| - from
  {
    if from < |flags| {
      NamesInMask(flags, i, from + 1);
      assert flags[from..][1..] == flags[from + 1..];
      MasksMeetOnlyThemselves(flags, from, i);
    }
  }

  /** No bit names no flag, and only the empty list encodes to none. */
  lemma NoFlagAlone(flags: Flags, names: seq<Name>)
    requires WellFormed(flags) && forall k :: 0 <= k < |names| ==> Known(flags, names[k])
    ensures NamesIn(flags, {}) == []
    ensures Encode(flags, names) == {} <==> names == []
  {
    NothingIn(flags);
    if names != [] {
      assert Known(flags, names[0]);
      var j :| 0 <= j < |flags| && flags[j].name == names[0];
      EncodeSetsExactly(flags, names, j);
    }
  }

  lemma {:induction false} NothingIn(flags: Flags)
    ensures NamesIn(flags, {}) == []
  {
    if flags != [] {
      NothingIn(flags[1..]);
    }
  }
}
