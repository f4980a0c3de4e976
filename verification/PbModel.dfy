/** Field descriptors of nanopb (pb.h) and the message structs they lay out.

    A `Field` is one pb_field_t row with static allocation.  `slot` stands for
    the storage its data pointer reaches: every field has storage of its own,
    except the members of one oneof, which share theirs.  A string is held as
    the bytes before its NUL. */
module PbModel {
  import opened Bytes

  datatype LType =
    | LVarint(size: nat)
    | LUvarint(size: nat)
    | LSvarint(size: nat)
    | LFixed32
    | LFixed64
    | LBytes(cap: nat)
    | LString(size: nat)
    | LSubmessage(sub: Descriptor)
    | LFixedBytes(size: nat)

  datatype HType = Required | Optional | Repeated(maxCount: nat) | Oneof

  /** Where the struct member sits, as the PB_DATAOFFSET macros record it. */
  datatype Placement = Placement(dataOffset: nat, sizeOffset: int, dataSize: nat)

  /** `init` is the default value row of a field that is not a submessage. */
  datatype Field = Field(tag: nat, htype: HType, ltype: LType, slot: nat, init: Value, place: Placement)

  datatype Descriptor = Descriptor(fields: seq<Field>, slots: nat)

  datatype Value = IntV(i: int) | BytesV(b: seq<byte>) | MsgV(m: Message)

  datatype Slot =
    | Plain(v: Value)
    | Maybe(has: bool, v: Value)
    | Many(vs: seq<Value>)
    | Union(which: nat, v: Value)

  datatype Message = Message(slots: seq<Slot>)

  /** PB_LTYPE_LAST_PACKABLE. */
  predicate Packable(lt: LType) {
    lt.LVarint? || lt.LUvarint? || lt.LSvarint? || lt.LFixed32? || lt.LFixed64?
  }

  // -- Well-formed descriptors -----------------------------------------------

  predicate IntSize(size: nat) {
    size == 1 || size == 2 || size == 4 || size == 8
  }

  /** 2^(8 * size). */
  function Modulus(size: nat): int
    requires IntSize(size)
  {
    if size == 1 then 0x100 else if size == 2 then 0x1_0000 else if size == 4 then TWO32 else TWO64
  }

  predicate InSigned(i: int, size: nat)
    requires IntSize(size)
  {
    -(Modulus(size) / 2) <= i < Modulus(size) / 2
  }

  predicate InUnsigned(i: int, size: nat)
    requires IntSize(size)
  {
    0 <= i < Modulus(size)
  }

  /** Sizes are those of a pb_size_t, which has at most 32 bits. */
  predicate LTypeOk(lt: LType)
    decreases lt
  {
    match lt
    case LVarint(size) => IntSize(size)
    case LUvarint(size) => IntSize(size)
    case LSvarint(size) => IntSize(size)
    case LFixed32 => true
    case LFixed64 => true
    case LBytes(cap) => cap < TWO32
    case LString(size) => size < TWO32
    case LSubmessage(sub) => WellFormed(sub)
    case LFixedBytes(size) => size < TWO32
  }

  predicate FieldOk(f: Field)
    decreases f
  {
    && 1 <= f.tag < 0x2000_0000
    && LTypeOk(f.ltype)
    && (!f.ltype.LSubmessage? ==> ScalarOk(f.ltype, f.init))
  }

  predicate WellFormed(d: Descriptor)
    decreases d
  {
    && (forall i :: 0 <= i < |d.fields| ==> FieldOk(d.fields[i]) && d.fields[i].slot < d.slots)
    && (forall i, j :: 0 <= i < j < |d.fields| ==> Separate(d.fields[i], d.fields[j]))
  }

  /** Distinct tags, and storage shared inside a oneof only. */
  predicate Separate(f: Field, g: Field) {
    && f.tag != g.tag
    && (f.slot == g.slot ==> f.htype.Oneof? && g.htype.Oneof?)
  }

  // -- Values that fit their storage -----------------------------------------

  predicate NoZero(b: seq<byte>) {
    forall i :: 0 <= i < |b| ==> b[i] != 0
  }

  predicate ScalarOk(lt: LType, v: Value)
    requires !lt.LSubmessage?
  {
    match lt
    case LVarint(size) => IntSize(size) && v.IntV? && InSigned(v.i, size)
    case LUvarint(size) => IntSize(size) && v.IntV? && InUnsigned(v.i, size)
    case LSvarint(size) => IntSize(size) && v.IntV? && InSigned(v.i, size)
    case LFixed32 => v.IntV? && 0 <= v.i < TWO32
    case LFixed64 => v.IntV? && 0 <= v.i < TWO64
    case LBytes(cap) => v.BytesV? && |v.b| <= cap
    case LString(size) => v.BytesV? && |v.b| < size && NoZero(v.b)
    case LFixedBytes(size) => v.BytesV? && |v.b| == size
  }

  /** `v` fits the storage of `lt`; with `all`, so does what absent optional
      fields inside it hold. */
  predicate ValueOk(lt: LType, v: Value, all: bool)
    requires LTypeOk(lt)
    decreases lt, 0
  {
    if lt.LSubmessage? then v.MsgV? && MessageOk(lt.sub, v.m, all) else ScalarOk(lt, v)
  }

  predicate SlotOk(f: Field, s: Slot, all: bool)
    requires FieldOk(f)
    decreases f
  {
    match f.htype
    case Required => s.Plain? && ValueOk(f.ltype, s.v, all)
    case Optional => s.Maybe? && (s.has || all ==> ValueOk(f.ltype, s.v, all))
    case Repeated(maxCount) =>
      s.Many? && |s.vs| <= maxCount && forall k :: 0 <= k < |s.vs| ==> ValueOk(f.ltype, s.vs[k], all)
    case Oneof => s.Union? && (s.which == f.tag ==> ValueOk(f.ltype, s.v, all))
  }

  predicate MessageOk(d: Descriptor, m: Message, all: bool)
    requires WellFormed(d)
    decreases d
  {
    && |m.slots| == d.slots
    && forall i :: 0 <= i < |d.fields| ==> SlotOk(d.fields[i], m.slots[d.fields[i].slot], all)
  }

  // -- Equality of messages ----------------------------------------------------

  /** Equal up to what absent optional fields and empty unions hold. */
  predicate SameValue(lt: LType, v: Value, w: Value)
    requires LTypeOk(lt)
    decreases lt
  {
    if lt.LSubmessage? then v.MsgV? && w.MsgV? && SameMessage(lt.sub, v.m, w.m) else v == w
  }

  predicate SameSlot(f: Field, s: Slot, t: Slot)
    requires FieldOk(f)
    decreases f
  {
    match f.htype
    case Required => s.Plain? && t.Plain? && SameValue(f.ltype, s.v, t.v)
    case Optional => s.Maybe? && t.Maybe? && s.has == t.has && (s.has ==> SameValue(f.ltype, s.v, t.v))
    case Repeated(_) =>
      && s.Many? && t.Many? && |s.vs| == |t.vs|
      && forall k :: 0 <= k < |s.vs| ==> SameValue(f.ltype, s.vs[k], t.vs[k])
    case Oneof =>
      && s.Union? && t.Union? && (s.which == f.tag <==> t.which == f.tag)
      && (s.which == f.tag ==> SameValue(f.ltype, s.v, t.v))
  }

  predicate SameMessage(d: Descriptor, m: Message, n: Message)
    requires WellFormed(d)
    decreases d
  {
    && |m.slots| == |n.slots| == d.slots
    && forall i :: 0 <= i < |d.fields| ==>
         SameSlot(d.fields[i], m.slots[d.fields[i].slot], n.slots[d.fields[i].slot])
  }

  // -- Defaults ------------------------------------------------------------------

  function InitValue(f: Field): Value
    requires FieldOk(f)
    decreases f, 0
  {
    assert LTypeOk(f.ltype);
    if f.ltype.LSubmessage? then MsgV(Defaults(f.ltype.sub)) else f.init
  }

  /** pb_field_set_to_default.  Array contents and the bytes of a union are left
      alone by the source; nothing reads them before they are written. */
  function DefaultSlot(f: Field): Slot
    requires FieldOk(f)
    decreases f, 1
  {
    match f.htype
    case Required => Plain(InitValue(f))
    case Optional => Maybe(false, InitValue(f))
    case Repeated(_) => Many([])
    case Oneof => Union(0, IntV(0))
  }

  function DefaultsFrom(d: Descriptor, i: nat, m: Message): (r: Message)
    requires WellFormed(d) && i <= |d.fields| && |m.slots| == d.slots
    ensures |r.slots| == d.slots
    decreases d, |d.fields| - i
  {
    if i == |d.fields| then m
    else DefaultsFrom(d, i + 1, Message(m.slots[d.fields[i].slot := DefaultSlot(d.fields[i])]))
  }

  /** pb_message_set_to_defaults. */
  function Defaults(d: Descriptor): (r: Message)
    requires WellFormed(d)
    ensures |r.slots| == d.slots
    decreases d, |d.fields| + 1
  {
    DefaultsFrom(d, 0, Message(seq(d.slots, _ => Many([]))))
  }

  lemma {:induction false} DefaultsFromSlots(d: Descriptor, i: nat, m: Message)
    requires WellFormed(d) && i <= |d.fields| && |m.slots| == d.slots
    requires forall j :: 0 <= j < i ==> m.slots[d.fields[j].slot] == DefaultSlot(d.fields[j])
    ensures forall j :: 0 <= j < |d.fields| ==>
              DefaultsFrom(d, i, m).slots[d.fields[j].slot] == DefaultSlot(d.fields[j])
    decreases |d.fields| - i
  {
    if i < |d.fields| {
      var m' := Message(m.slots[d.fields[i].slot := DefaultSlot(d.fields[i])]);
      forall j | 0 <= j < i + 1
        ensures m'.slots[d.fields[j].slot] == DefaultSlot(d.fields[j])
      {
        if j < i {
          assert Separate(d.fields[j], d.fields[i]);
        }
      }
      DefaultsFromSlots(d, i + 1, m');
    }
  }

  /** Every field starts at its own default. */
  lemma DefaultsSlots(d: Descriptor)
    requires WellFormed(d)
    ensures forall j :: 0 <= j < |d.fields| ==>
              Defaults(d).slots[d.fields[j].slot] == DefaultSlot(d.fields[j])
  {
    DefaultsFromSlots(d, 0, Message(seq(d.slots, _ => Many([]))));
  }

  lemma {:induction false} InitValueOk(f: Field)
    requires FieldOk(f)
    ensures ValueOk(f.ltype, InitValue(f), true)
    decreases f
  {
    assert LTypeOk(f.ltype);
    if f.ltype.LSubmessage? {
      DefaultsOk(f.ltype.sub);
    }
  }

  /** The default message fits its storage. */
  lemma {:induction false} DefaultsOk(d: Descriptor)
    requires WellFormed(d)
    ensures MessageOk(d, Defaults(d), true)
    decreases d
  {
    DefaultsSlots(d);
    forall i | 0 <= i < |d.fields|
      ensures SlotOk(d.fields[i], Defaults(d).slots[d.fields[i].slot], true)
    {
      assert FieldOk(d.fields[i]);
      InitValueOk(d.fields[i]);
      assert Defaults(d).slots[d.fields[i].slot] == DefaultSlot(d.fields[i]);
    }
  }
}
