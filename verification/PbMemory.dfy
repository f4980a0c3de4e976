/** The struct a message is decoded into: where its members are, and every write
    the decoders make to it, on failing runs too. */
module PbMemory {
  import opened PbModel
  import opened PbIterator

  /** pb_size_t with PB_FIELD_32BIT, and PB_SIZE_MAX. */
  const COUNT_SIZE := 4
  const SIZE_MAX := 0xFFFF_FFFF

  // -- Writes ------------------------------------------------------------------------------

  /** A write of `len` bytes at `off`: to the data of a member, to its has_ flag, to its
      count or to the which_ of its oneof. */
  datatype Write =
    | Data(off: int, len: nat)
    | Flag(off: int, on: bool)
    | Count(off: int, n: nat)
    | Which(off: int, tag: nat)

  function Length(w: Write): nat {
    match w case Data(_, len) => len case Flag(_, _) => 1 case Count(_, _) => COUNT_SIZE case Which(_, _) => COUNT_SIZE
  }

  /** The bytes from `lo` up to `hi`. */
  datatype Place = Place(lo: int, hi: int)

  predicate In(w: Write, p: Place) {
    p.lo <= w.off && w.off + Length(w) <= p.hi
  }

  predicate Within(p: Place, q: Place) {
    p == q || (q.lo <= p.lo && p.hi <= q.hi)
  }

  predicate Disjoint(p: Place, q: Place) {
    p.hi <= q.lo || q.hi <= p.lo
  }

  /** The log went from `before` to `now` by writes inside `p` or `q` only. */
  predicate Grew(before: seq<Write>, now: seq<Write>, p: Place, q: Place) {
    before <= now && forall k :: |before| <= k < |now| ==> In(now[k], p) || In(now[k], q)
  }

  lemma GrewMore(a: seq<Write>, b: seq<Write>, c: seq<Write>, p: Place, q: Place, p': Place, q': Place)
    requires Grew(a, b, p, q) && Grew(b, c, p', q')
    requires Within(p', p) || Within(p', q)
    requires Within(q', p) || Within(q', q)
    ensures Grew(a, c, p, q)
  {
    forall k | |a| <= k < |c| ensures In(c[k], p) || In(c[k], q) {
      if k < |b| {
        assert c[k] == b[k];
      }
    }
  }

  /** The struct a decoder writes to. */
  class Dest {
    ghost var Log: seq<Write>

    constructor ()
      ensures Log == []
    {
      Log := [];
    }

    method Store(w: Write)
      modifies this
      ensures Log == old(Log) + [w]
          && Grew(old(Log), Log, Place(w.off, w.off + Length(w)), Place(w.off, w.off + Length(w)))
    {
      Log := Log + [w];
    }
  }

  // -- Members ------------------------------------------------------------------------------

  function OffsetOf(fields: seq<Field>, i: nat): nat
    requires i < |fields|
  {
    if i == 0 then fields[0].place.dataOffset
    else if InUnion(fields[i - 1], fields[i], SIZE_MAX) then OffsetOf(fields, i - 1)
    else OffsetOf(fields, i - 1) + MemberSize(fields[i - 1]) + fields[i].place.dataOffset
  }

  /** The offsets that the macros encode. */
  function Offsets(fields: seq<Field>): (at: seq<nat>)
    ensures |at| == |fields|
  {
    seq(|fields|, i requires 0 <= i < |fields| => OffsetOf(fields, i))
  }

  function DataPlace(f: Field, at: int): Place {
    Place(at, at + MemberSize(f))
  }

  /** The has_ flag, the count or the which_ that goes with the member. */
  function SizePlace(f: Field, at: int): Place {
    var lo := at + f.place.sizeOffset;
    match f.htype
    case Required => DataPlace(f, at)
    case Optional => Place(lo, lo + 1)
    case _ => Place(lo, lo + COUNT_SIZE)
  }

  /** `n` bytes are what a value of this type takes: pb_membersize of a single entry. */
  predicate Stores(lt: LType, n: nat)
    decreases lt
  {
    match lt
    case LVarint(size) => n == size
    case LUvarint(size) => n == size
    case LSvarint(size) => n == size
    case LFixed32 => n == 4
    case LFixed64 => n == 8
    case LBytes(cap) => n == COUNT_SIZE + cap
    case LString(size) => n == size
    case LFixedBytes(size) => n == size
    case LSubmessage(sub) => Struct(sub, n)
  }

  predicate Member(f: Field, at: int, size: nat)
    decreases f
  {
    && Stores(f.ltype, f.place.dataSize)
    && Within(DataPlace(f, at), Place(0, size)) && Within(SizePlace(f, at), Place(0, size))
  }

  /** The table describes a struct of `size` bytes. */
  predicate Struct(d: Descriptor, size: nat)
    decreases d
  {
    && LaidOut(d.fields, Offsets(d.fields), SIZE_MAX)
    && forall i :: 0 <= i < |d.fields| ==> Member(d.fields[i], Offsets(d.fields)[i], size)
  }

  // -- Members of their own -----------------------------------------------------------------

  /** Rows `i` to `j` are members of one union. */
  predicate OneUnion(fields: seq<Field>, i: nat, j: nat)
    requires i <= j < |fields|
  {
    forall k :: i < k <= j ==> InUnion(fields[k - 1], fields[k], SIZE_MAX)
  }

  /** Rows `i` to `j` are members of one union, which ends there. */
  predicate LastOfUnion(fields: seq<Field>, i: nat, j: nat)
    requires i <= j < |fields|
  {
    OneUnion(fields, i, j) && (j + 1 < |fields| ==> !InUnion(fields[j], fields[j + 1], SIZE_MAX))
  }

  /** A union is as large as each of its members: what comes after it begins behind them all. */
  predicate RoomyUnions(fields: seq<Field>) {
    forall i, j :: 0 <= i < j < |fields| && LastOfUnion(fields, i, j - 1) ==>
      OffsetOf(fields, i) + MemberSize(fields[i]) <= OffsetOf(fields, j)
  }

  lemma {:induction false} OffsetsGrow(fields: seq<Field>, i: nat, j: nat)
    requires i <= j < |fields|
    ensures OffsetOf(fields, i) <= OffsetOf(fields, j)
  {
    if i < j {
      OffsetsGrow(fields, i, j - 1);
    }
  }

  lemma UnionGrows(fields: seq<Field>, i: nat, j: nat)
    requires i < j < |fields|
    ensures OneUnion(fields, i, j) <==> OneUnion(fields, i, j - 1) && InUnion(fields[j - 1], fields[j], SIZE_MAX)
  {
    hide InUnion;
  }

  lemma NextOffset(fields: seq<Field>, j: nat)
    requires 0 < j < |fields|
    ensures OffsetOf(fields, j - 1) <= OffsetOf(fields, j)
    ensures InUnion(fields[j - 1], fields[j], SIZE_MAX) ==> OffsetOf(fields, j - 1) == OffsetOf(fields, j)
  {
  }

  lemma Roomy(fields: seq<Field>, i: nat, j: nat)
    requires RoomyUnions(fields) && i < j < |fields|
    requires LastOfUnion(fields, i, j - 1)
    ensures OffsetOf(fields, i) + MemberSize(fields[i]) <= OffsetOf(fields, j)
  {
    hide OneUnion, InUnion, OffsetOf, MemberSize;
  }

  /** Two members overlap only if they are in the same union. */
  lemma {:induction false} MembersApart(fields: seq<Field>, i: nat, j: nat)
    requires RoomyUnions(fields) && i < j < |fields|
    ensures if OneUnion(fields, i, j) then OffsetOf(fields, i) == OffsetOf(fields, j)
            else OffsetOf(fields, i) + MemberSize(fields[i]) <= OffsetOf(fields, j)
  {
    hide OneUnion, InUnion, OffsetOf, MemberSize, RoomyUnions;
    if i + 1 < j {
      MembersApart(fields, i, j - 1);
    } else {
      Alone(fields, i);
    }
    UnionGrows(fields, i, j);
    NextOffset(fields, j);
    if OneUnion(fields, i, j - 1) && !InUnion(fields[j - 1], fields[j], SIZE_MAX) {
      Roomy(fields, i, j);
    }
  }

  lemma Alone(fields: seq<Field>, i: nat)
    requires i < |fields|
    ensures OneUnion(fields, i, i)
  {
  }

  predicate SameUnion(fields: seq<Field>, i: nat, j: nat)
    requires i < |fields| && j < |fields|
  {
    if i <= j then OneUnion(fields, i, j) else OneUnion(fields, j, i)
  }

  /** No flag, count or which_ overlaps a member, or one of another member. */
  predicate SizesApart(fields: seq<Field>) {
    var at := Offsets(fields);
    forall i, j :: 0 <= i < |fields| && 0 <= j < |fields| && !fields[i].htype.Required? ==>
      && Disjoint(SizePlace(fields[i], at[i]), DataPlace(fields[j], at[j]))
      && (!fields[j].htype.Required? && !SameUnion(fields, i, j) ==>
            Disjoint(SizePlace(fields[i], at[i]), SizePlace(fields[j], at[j])))
  }

  lemma DataApart(fields: seq<Field>, i: nat, j: nat)
    requires RoomyUnions(fields) && i < |fields| && j < |fields| && !SameUnion(fields, i, j)
    ensures Disjoint(DataPlace(fields[i], Offsets(fields)[i]), DataPlace(fields[j], Offsets(fields)[j]))
  {
    hide RoomyUnions, OneUnion, OffsetOf, MemberSize;
    if i < j {
      MembersApart(fields, i, j);
    } else if j < i {
      MembersApart(fields, j, i);
    } else {
      Alone(fields, i);
    }
  }

  lemma SizeApart(fields: seq<Field>, i: nat, j: nat)
    requires SizesApart(fields) && i < |fields| && j < |fields| && !fields[i].htype.Required?
    ensures var at := Offsets(fields);
            && Disjoint(SizePlace(fields[i], at[i]), DataPlace(fields[j], at[j]))
            && (!fields[j].htype.Required? && !SameUnion(fields, i, j) ==>
                  Disjoint(SizePlace(fields[i], at[i]), SizePlace(fields[j], at[j])))
  {
    hide SameUnion, SizePlace, DataPlace, Disjoint, Offsets;
  }

  /** What is written for one field of a struct at `base` leaves every other alone, unless
      they share a union. */
  lemma OthersUntouched(fields: seq<Field>, i: nat, j: nat, base: int, w: Write)
    requires RoomyUnions(fields) && SizesApart(fields)
    requires i < |fields| && j < |fields| && !SameUnion(fields, i, j)
    requires var at := base + Offsets(fields)[i]; In(w, DataPlace(fields[i], at)) || In(w, SizePlace(fields[i], at))
    ensures var at := base + Offsets(fields)[j];
            && Disjoint(Place(w.off, w.off + Length(w)), DataPlace(fields[j], at))
            && Disjoint(Place(w.off, w.off + Length(w)), SizePlace(fields[j], at))
  {
    hide RoomyUnions, SizesApart, Offsets, OneUnion, MemberSize, Length;
    UnionBothWays(fields, i, j);
    DataApart(fields, i, j);
    if !fields[i].htype.Required? {
      SizeApart(fields, i, j);
    }
    if !fields[j].htype.Required? {
      SizeApart(fields, j, i);
    }
  }

  lemma UnionBothWays(fields: seq<Field>, i: nat, j: nat)
    requires i < |fields| && j < |fields|
    ensures SameUnion(fields, i, j) <==> SameUnion(fields, j, i)
  {
  }

  /** struct { int32_t a; bool has_b; int32_t b; pb_size_t c_count; uint32_t c[2]; } */
  function Example(): Descriptor {
    Descriptor([Field(1, Required, LVarint(4), 0, IntV(0), Placement(0, 0, 4)),
                Field(2, Optional, LVarint(4), 1, IntV(0), Placement(4, -4, 4)),
                Field(3, Repeated(2), LUvarint(4), 2, IntV(0), Placement(4, -4, 4))], 3)
  }

  lemma ExampleOffsets()
    ensures Offsets(Example().fields) == [0, 8, 16]
  {
    var fields := Example().fields;
    assert OffsetOf(fields, 0) == 0 && OffsetOf(fields, 1) == 8 && OffsetOf(fields, 2) == 16;
  }

  lemma ExampleStruct()
    ensures WellFormed(Example()) && Struct(Example(), 24)
  {
    ExampleOffsets();
    hide OffsetOf, Offsets;
    var fields := Example().fields;
    assert FieldOk(fields[0]) && FieldOk(fields[1]) && FieldOk(fields[2]);
    assert Member(fields[0], 0, 24) && Member(fields[1], 8, 24) && Member(fields[2], 16, 24);
  }

  lemma ExampleRoomy()
    ensures RoomyUnions(Example().fields)
  {
    ExampleOffsets();
    var fields := Example().fields;
    assert OffsetOf(fields, 0) == 0 && OffsetOf(fields, 1) == 8 && OffsetOf(fields, 2) == 16;
    hide OffsetOf, Offsets, OneUnion, InUnion, LastOfUnion;
  }

  lemma ExampleSizesApart()
    ensures SizesApart(Example().fields)
  {
    ExampleOffsets();
    hide OffsetOf, Offsets, OneUnion, SizePlace, DataPlace;
    var fields := Example().fields;
    var at := Offsets(fields);
    forall i, j | 0 <= i < 3 && 0 <= j < 3 && !fields[i].htype.Required?
      ensures Disjoint(SizePlace(fields[i], at[i]), DataPlace(fields[j], at[j]))
      ensures SameUnion(fields, i, j) || Disjoint(SizePlace(fields[i], at[i]), SizePlace(fields[j], at[j]))
              || fields[j].htype.Required?
    {
      PlacesOf(i);
      PlacesOf(j);
      Alone(fields, i);
    }
  }

  predicate ExamplePlaces(f: Field, at: int, i: nat) {
    && i < 3 && DataPlace(f, at) == [Place(0, 4), Place(8, 12), Place(16, 24)][i]
    && SizePlace(f, at) == [Place(0, 4), Place(4, 5), Place(12, 16)][i]
  }

  lemma PlacesOf(i: nat)
    requires i < 3
    ensures ExamplePlaces(Example().fields[i], [0, 8, 16][i], i)
  {
  }
}
