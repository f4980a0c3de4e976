/** pb_decode reads back every message pb_encode writes. */
module PbRoundTrip {
  import opened Bytes
  import opened Options
  import opened Varint
  import opened PbModel
  import opened PbWire

  // -- Length prefixes the decoder can read ----------------------------------------

  /** Every submessage and packed array inside `v` encodes to fewer than 2^32
      bytes: the decoder reads lengths as 32-bit varints. */
  predicate FitsValue(lt: LType, v: Value)
    decreases lt, 0
  {
    lt.LSubmessage? && v.MsgV? ==>
      && FitsMessage(lt.sub, v.m)
      && var e := EncodeFrom(lt.sub, v.m, 0); e.Some? ==> |e.value| < TWO32
  }

  predicate FitsSlot(f: Field, s: Slot)
    decreases f
  {
    match s
    case Plain(v) => FitsValue(f.ltype, v)
    case Maybe(has, v) => has ==> FitsValue(f.ltype, v)
    case Many(vs) =>
      if Packable(f.ltype) then var e := EncodeItems(f.ltype, vs); e.Some? ==> |e.value| < TWO32
      else forall k :: 0 <= k < |vs| ==> FitsValue(f.ltype, vs[k])
    case Union(which, v) => which == f.tag ==> FitsValue(f.ltype, v)
  }

  predicate FitsMessage(d: Descriptor, m: Message)
    decreases d
  {
    forall i :: 0 <= i < |d.fields| && d.fields[i].slot < |m.slots| ==>
      FitsSlot(d.fields[i], m.slots[d.fields[i].slot])
  }

  // -- Values that are not messages --------------------------------------------------

  lemma SignedBack(i: int, size: nat)
    requires IntSize(size) && InSigned(i, size)
    ensures AsUint64(i) < TWO64 && SignedOf(AsUint64(i), size) == i
  {
  }

  lemma IntRoundTrip(lt: LType, v: Value, e: seq<byte>, tail: seq<byte>)
    requires Packable(lt) && LTypeOk(lt) && EncodeValue(lt, v) == Some(e)
    ensures DecodeInt(lt, e + tail) == Some(Parsed(v, tail))
  {
    match lt
    case LVarint(size) =>
      SignedBack(v.i, size);
      Varint64RoundTrip(AsUint64(v.i), tail);
    case LUvarint(size) =>
      Varint64RoundTrip(v.i, tail);
    case LSvarint(size) =>
      ZigZagRoundTrip(v.i, tail);
    case LFixed32 =>
      FixedBack(v.i, 4, tail);
    case LFixed64 =>
      FixedBack(v.i, 8, tail);
  }

  lemma FixedBack(v: nat, n: nat, tail: seq<byte>)
    requires (n == 4 && v < TWO32) || (n == 8 && v < TWO64)
    ensures DecodeFixed(n, FixedBytes(v, n) + tail) == Some(Parsed(IntV(v), tail))
  {
    Pow256Values();
    FixedRoundTrip(v, n);
    var bs := FixedBytes(v, n) + tail;
    assert bs[..n] == FixedBytes(v, n) && bs[n..] == tail;
  }

  lemma TakeBack(b: seq<byte>, tail: seq<byte>)
    ensures Take(|b|, b + tail) == Some(Parsed(b, tail))
  {
    assert (b + tail)[..|b|] == b && (b + tail)[|b|..] == tail;
  }

  lemma SubstreamBack(b: seq<byte>, tail: seq<byte>)
    requires |b| < TWO32
    ensures Substream(Prefixed(b) + tail) == Some(Parsed(b, tail))
  {
    assert Prefixed(b) + tail == VarintBytes(|b|) + (b + tail);
    Varint32RoundTrip(|b|, b + tail);
    TakeBack(b, tail);
  }

  lemma {:induction false} UpToNulWhole(b: seq<byte>)
    requires NoZero(b)
    ensures UpToNul(b) == b
  {
    if b != [] {
      UpToNulWhole(b[1..]);
    }
  }

  lemma BytesRoundTrip(lt: LType, v: Value, tail: seq<byte>)
    requires (lt.LBytes? || lt.LString? || lt.LFixedBytes?) && LTypeOk(lt) && ScalarOk(lt, v)
    ensures DecodeBytes(lt, Prefixed(v.b) + tail) == Some(Parsed(v, tail))
  {
    assert Prefixed(v.b) + tail == VarintBytes(|v.b|) + (v.b + tail);
    Varint32RoundTrip(|v.b|, v.b + tail);
    TakeBack(v.b, tail);
    if lt.LString? {
      UpToNulWhole(v.b);
    } else if lt.LFixedBytes? && |v.b| == 0 {
      assert v.b == Zeros(0) && v.b + tail == tail;
    }
  }

  lemma TagBack(wt: nat, tag: nat, tail: seq<byte>)
    requires wt < 8 && 1 <= tag < 0x2000_0000
    ensures ReadTag(TagBytes(wt, tag) + tail) == Tagged(tag, wt, tail)
    ensures |TagBytes(wt, tag)| > 0
  {
    Varint32RoundTrip(8 * tag + wt, tail);
  }

  // -- Packed arrays -----------------------------------------------------------------

  lemma ItemsCons(lt: LType, vs: seq<Value>, e: seq<byte>) returns (h: seq<byte>, t: seq<byte>)
    requires vs != [] && EncodeItems(lt, vs) == Some(e)
    ensures EncodeValue(lt, vs[0]) == Some(h) && EncodeItems(lt, vs[1..]) == Some(t)
    ensures e == h + t
  {
    h, t := EncodeValue(lt, vs[0]).value, EncodeItems(lt, vs[1..]).value;
  }

  lemma PackedStep(lt: LType, maxCount: nat, got: seq<Value>, v: Value, body: seq<byte>, rest: seq<byte>)
    requires Packable(lt) && LTypeOk(lt) && |got| < maxCount && DecodeInt(lt, body) == Some(Parsed(v, rest))
    ensures DecodePacked(lt, maxCount, got, body) == DecodePacked(lt, maxCount, got + [v], rest)
  {
  }

  lemma {:induction false} PackedRoundTrip(lt: LType, maxCount: nat, got: seq<Value>, vs: seq<Value>, e: seq<byte>)
    requires Packable(lt) && LTypeOk(lt) && |got| + |vs| <= maxCount
    requires EncodeItems(lt, vs) == Some(e)
    ensures DecodePacked(lt, maxCount, got, e) == Some(got + vs)
    decreases |vs|
  {
    if vs == [] {
      assert got + vs == got;
    } else {
      hide *;
      var h, t := ItemsCons(lt, vs, e);
      IntRoundTrip(lt, vs[0], h, t);
      PackedStep(lt, maxCount, got, vs[0], h + t, t);
      PackedRoundTrip(lt, maxCount, got + [vs[0]], vs[1..], t);
      assert got + [vs[0]] + vs[1..] == got + vs;
    }
  }

  // -- One step of the decoding loop ---------------------------------------------------

  lemma {:induction false} FindOwn(d: Descriptor, i: nat, j: nat)
    requires WellFormed(d) && j <= i < |d.fields|
    ensures FindFrom(d, d.fields[i].tag, j) == Some(i)
    decreases i - j
  {
    if j < i {
      assert Separate(d.fields[j], d.fields[i]);
      FindOwn(d, i, j + 1);
    }
  }

  /** The slot of field `i` replaced. */
  function With(d: Descriptor, m: Message, i: nat, s: Slot): (r: Message)
    requires WellFormed(d) && |m.slots| == d.slots && i < |d.fields|
    ensures |r.slots| == d.slots
  {
    Message(m.slots[d.fields[i].slot := s])
  }

  /** The loop unfolds once on a known field. */
  lemma LoopStep(d: Descriptor, cur: Message, seen: set<nat>, bs: seq<byte>, i: nat, wt: nat, rest: seq<byte>,
                 s: Slot, te: seq<byte>)
    requires WellFormed(d) && |cur.slots| == d.slots && i < |d.fields| && bs != []
    requires ReadTag(bs) == Tagged(d.fields[i].tag, wt, rest)
    requires FieldOk(d.fields[i])
    requires DecodeField(d.fields[i], cur.slots[d.fields[i].slot], wt, rest) == Some(Parsed(s, te))
    ensures DecodeLoop(d, cur, seen, bs) == DecodeLoop(d, With(d, cur, i, s), MarkSeen(d, i, seen), te)
  {
    FindOwn(d, i, 0);
    assert Find(d, d.fields[i].tag) == Some(i);
  }

  lemma StepRoundTrip(d: Descriptor, cur: Message, seen: set<nat>, i: nat, wt: nat, s: Slot, ve: seq<byte>,
                      te: seq<byte>)
    requires WellFormed(d) && |cur.slots| == d.slots && i < |d.fields| && wt < 8
    requires DecodeField(d.fields[i], cur.slots[d.fields[i].slot], wt, ve + te) == Some(Parsed(s, te))
    ensures DecodeLoop(d, cur, seen, TagBytes(wt, d.fields[i].tag) + ve + te)
         == DecodeLoop(d, With(d, cur, i, s), MarkSeen(d, i, seen), te)
  {
    var tag := d.fields[i].tag;
    assert FieldOk(d.fields[i]);
    TagBack(wt, tag, ve + te);
    assert TagBytes(wt, tag) + ve + te == TagBytes(wt, tag) + (ve + te);
    LoopStep(d, cur, seen, TagBytes(wt, tag) + ve + te, i, wt, ve + te, s, te);
  }

  // -- Progress through the field table ------------------------------------------------

  /** Fields before `i` have arrived in `cur`; the others are untouched. */
  predicate Progress(d: Descriptor, m: Message, cur: Message, i: nat)
    requires WellFormed(d)
  {
    && |m.slots| == |cur.slots| == d.slots && i <= |d.fields|
    && (forall j :: 0 <= j < i ==> Arrived(d, m, cur, j))
    && (forall j :: i <= j < |d.fields| ==> Untouched(d, cur, j))
  }

  predicate Arrived(d: Descriptor, m: Message, cur: Message, j: nat)
    requires WellFormed(d) && |m.slots| == |cur.slots| == d.slots && j < |d.fields|
  {
    SameSlot(d.fields[j], m.slots[d.fields[j].slot], cur.slots[d.fields[j].slot])
  }

  predicate Untouched(d: Descriptor, cur: Message, j: nat)
    requires WellFormed(d) && |cur.slots| == d.slots && j < |d.fields|
  {
    var f, s := d.fields[j], cur.slots[d.fields[j].slot];
    if f.htype.Oneof? then s.Union? && s.which != f.tag else s == DefaultSlot(f)
  }

  /** Required fields before `i` that the bitmap has room for are marked. */
  predicate SeenUpTo(d: Descriptor, seen: set<nat>, i: nat)
    requires i <= |d.fields|
  {
    forall k :: 0 <= k < MAX_REQUIRED && k < RequiredBefore(d, i) ==> k in seen
  }

  /** Putting the right slot for field `i` makes progress by one field. */
  lemma Advance(d: Descriptor, m: Message, cur: Message, i: nat, s: Slot)
    requires WellFormed(d) && i < |d.fields| && Progress(d, m, cur, i)
    requires SameSlot(d.fields[i], m.slots[d.fields[i].slot], s)
    requires d.fields[i].htype.Oneof? ==> s.Union? && s.which == d.fields[i].tag
    ensures Progress(d, m, With(d, cur, i, s), i + 1)
  {
    var n := With(d, cur, i, s);
    forall j | 0 <= j < i + 1
      ensures Arrived(d, m, n, j)
    {
      if j < i {
        assert Arrived(d, m, cur, j) && Separate(d.fields[j], d.fields[i]);
      }
    }
    forall j | i + 1 <= j < |d.fields|
      ensures Untouched(d, n, j)
    {
      assert Untouched(d, cur, j) && Separate(d.fields[i], d.fields[j]);
    }
  }

  /** A field that was not written is already right. */
  lemma AdvanceAbsent(d: Descriptor, m: Message, cur: Message, i: nat)
    requires WellFormed(d) && i < |d.fields| && Progress(d, m, cur, i)
    requires EncodeField(d.fields[i], m.slots[d.fields[i].slot]).Some?
    requires match m.slots[d.fields[i].slot]
             case Plain(_) => false
             case Maybe(has, _) => !has
             case Many(vs) => vs == []
             case Union(which, _) => which != d.fields[i].tag
    ensures Progress(d, m, cur, i + 1)
  {
    assert FieldOk(d.fields[i]);
    assert Untouched(d, cur, i);
    assert Arrived(d, m, cur, i);
  }

  // -- Messages --------------------------------------------------------------------------

  lemma {:induction false} ValueRoundTrip(lt: LType, v: Value, prev: Value, e: seq<byte>, tail: seq<byte>)
    returns (w: Value)
    requires LTypeOk(lt) && ValueOk(lt, v, false) && FitsValue(lt, v)
    requires EncodeValue(lt, v) == Some(e)
    requires lt.LSubmessage? ==> prev == MsgV(Defaults(lt.sub))
    ensures DecodeValue(lt, prev, e + tail) == Some(Parsed(w, tail))
    ensures SameValue(lt, v, w)
    decreases lt, 0
  {
    if Packable(lt) {
      IntRoundTrip(lt, v, e, tail);
      w := v;
    } else if !lt.LSubmessage? {
      BytesRoundTrip(lt, v, tail);
      w := v;
    } else {
      var body := EncodeFrom(lt.sub, v.m, 0).value;
      var l := MessageRoundTrip(lt.sub, v.m, body);
      SubstreamBack(body, tail);
      w := MsgV(l.m);
    }
  }

  /** A field that holds one value: the step that reads it back. */
  lemma {:induction false} SingleRoundTrip(d: Descriptor, m: Message, cur: Message, seen: set<nat>, i: nat, v: Value,
                         e: seq<byte>, te: seq<byte>) returns (next: Message)
    requires WellFormed(d) && i < |d.fields| && Progress(d, m, cur, i)
    requires FieldOk(d.fields[i]) && ValueOk(d.fields[i].ltype, v, false) && FitsValue(d.fields[i].ltype, v)
    requires match d.fields[i].htype
             case Required => m.slots[d.fields[i].slot] == Plain(v)
             case Optional => m.slots[d.fields[i].slot] == Maybe(true, v)
             case Repeated(_) => false
             case Oneof => m.slots[d.fields[i].slot] == Union(d.fields[i].tag, v)
    requires EncodeOne(d.fields[i].tag, d.fields[i].ltype, v) == Some(e)
    ensures |next.slots| == d.slots && Progress(d, m, next, i + 1)
    ensures DecodeLoop(d, cur, seen, e + te) == DecodeLoop(d, next, MarkSeen(d, i, seen), te)
    decreases d.fields[i], 1
  {
    var f := d.fields[i];
    var ve := EncodeValue(f.ltype, v).value;
    assert Untouched(d, cur, i);
    assert StartValue(f, cur.slots[f.slot]) == InitValue(f);
    assert f.ltype.LSubmessage? ==> InitValue(f) == MsgV(Defaults(f.ltype.sub));
    var w := ValueRoundTrip(f.ltype, v, StartValue(f, cur.slots[f.slot]), ve, te);
    var s := match f.htype
      case Required => Plain(w)
      case Optional => Maybe(true, w)
      case _ => Union(f.tag, w);
    StepRoundTrip(d, cur, seen, i, WireType(f.ltype), s, ve, te);
    next := With(d, cur, i, s);
    Advance(d, m, cur, i, s);
  }

  lemma WithSame(d: Descriptor, cur: Message, i: nat, got: seq<Value>)
    requires WellFormed(d) && |cur.slots| == d.slots && i < |d.fields|
    requires cur.slots[d.fields[i].slot] == Many(got)
    ensures With(d, cur, i, Many(got + [])) == cur
  {
    assert got + [] == got;
    assert cur.slots[d.fields[i].slot := Many(got)] == cur.slots;
  }

  lemma WithTwice(d: Descriptor, cur: Message, i: nat, s: Slot, t: Slot)
    requires WellFormed(d) && |cur.slots| == d.slots && i < |d.fields|
    ensures With(d, With(d, cur, i, s), i, t) == With(d, cur, i, t)
    ensures With(d, cur, i, s).slots[d.fields[i].slot] == s
  {
    assert cur.slots[d.fields[i].slot := s][d.fields[i].slot := t] == cur.slots[d.fields[i].slot := t];
  }

  predicate ItemsOk(lt: LType, vs: seq<Value>)
    requires LTypeOk(lt)
  {
    forall k :: 0 <= k < |vs| ==> ValueOk(lt, vs[k], false) && FitsValue(lt, vs[k])
  }

  predicate SameItems(lt: LType, vs: seq<Value>, ws: seq<Value>)
    requires LTypeOk(lt)
  {
    |ws| == |vs| && forall k :: 0 <= k < |vs| ==> SameValue(lt, vs[k], ws[k])
  }

  lemma SameItemsCons(lt: LType, vs: seq<Value>, w: Value, ws: seq<Value>)
    requires LTypeOk(lt) && vs != [] && SameValue(lt, vs[0], w) && SameItems(lt, vs[1..], ws)
    ensures SameItems(lt, vs, [w] + ws)
  {
    assert forall k :: 1 <= k < |vs| ==> vs[k] == vs[1..][k - 1] && ([w] + ws)[k] == ws[k - 1];
  }

  lemma TaggedCons(tag: nat, lt: LType, vs: seq<Value>, e: seq<byte>) returns (one: seq<byte>, rest: seq<byte>)
    requires vs != [] && EncodeTagged(tag, lt, vs) == Some(e)
    ensures EncodeOne(tag, lt, vs[0]) == Some(one) && EncodeTagged(tag, lt, vs[1..]) == Some(rest)
    ensures e == one + rest
  {
    one, rest := EncodeOne(tag, lt, vs[0]).value, EncodeTagged(tag, lt, vs[1..]).value;
  }

  /** Items written one by one: each step appends one more. */
  lemma {:induction false} TaggedRoundTrip(d: Descriptor, cur: Message, seen: set<nat>, i: nat,
      vs: seq<Value>, got: seq<Value>,
                         e: seq<byte>, te: seq<byte>) returns (ws: seq<Value>, fin: Message)
    requires WellFormed(d) && |cur.slots| == d.slots && i < |d.fields| && FieldOk(d.fields[i])
    requires !Packable(d.fields[i].ltype) && d.fields[i].htype.Repeated?
    requires cur.slots[d.fields[i].slot] == Many(got) && |got| + |vs| <= d.fields[i].htype.maxCount
    requires LTypeOk(d.fields[i].ltype) && ItemsOk(d.fields[i].ltype, vs)
    requires EncodeTagged(d.fields[i].tag, d.fields[i].ltype, vs) == Some(e)
    ensures SameItems(d.fields[i].ltype, vs, ws)
    ensures fin == With(d, cur, i, Many(got + ws))
    ensures DecodeLoop(d, cur, seen, e + te) == DecodeLoop(d, fin, seen, te)
    decreases d.fields[i], 1, |vs|
  {
    var f := d.fields[i];
    if vs == [] {
      ws, fin := [], cur;
      assert e + te == te;
      WithSame(d, cur, i, got);
    } else {
      var one, rest := TaggedCons(f.tag, f.ltype, vs, e);
      var w := ItemRoundTrip(d, cur, seen, i, vs[0], got, one, rest + te);
      Assoc(one, rest, te);
      var next := With(d, cur, i, Many(got + [w]));
      var ws';
      ws', fin := TaggedRoundTrip(d, next, seen, i, vs[1..], got + [w], rest, te);
      ws := [w] + ws';
      Assoc(got, [w], ws');
      WithTwice(d, cur, i, Many(got + [w]), Many(got + ws));
      SameItemsCons(f.ltype, vs, w, ws');
    }
  }

  lemma {:induction false} ItemRoundTrip(d: Descriptor, cur: Message, seen: set<nat>, i: nat, v: Value, got: seq<Value>,
                       e: seq<byte>, te: seq<byte>) returns (w: Value)
    requires WellFormed(d) && |cur.slots| == d.slots && i < |d.fields| && FieldOk(d.fields[i])
    requires !Packable(d.fields[i].ltype) && d.fields[i].htype.Repeated?
    requires cur.slots[d.fields[i].slot] == Many(got) && |got| < d.fields[i].htype.maxCount
    requires ValueOk(d.fields[i].ltype, v, false) && FitsValue(d.fields[i].ltype, v)
    requires EncodeOne(d.fields[i].tag, d.fields[i].ltype, v) == Some(e)
    ensures SameValue(d.fields[i].ltype, v, w)
    ensures DecodeLoop(d, cur, seen, e + te) == DecodeLoop(d, With(d, cur, i, Many(got + [w])), seen, te)
    decreases d.fields[i], 1, 0
  {
    var f := d.fields[i];
    var ve := EncodeValue(f.ltype, v).value;
    w := ValueRoundTrip(f.ltype, v, InitValue(f), ve, te);
    StepRoundTrip(d, cur, seen, i, WireType(f.ltype), Many(got + [w]), ve, te);
  }

  lemma {:induction false} ArrayRoundTrip(d: Descriptor, m: Message, cur: Message, seen: set<nat>, i: nat,
                        e: seq<byte>, te: seq<byte>) returns (next: Message)
    requires WellFormed(d) && i < |d.fields| && Progress(d, m, cur, i)
    requires FieldOk(d.fields[i]) && SlotOk(d.fields[i], m.slots[d.fields[i].slot], false)
    requires FitsSlot(d.fields[i], m.slots[d.fields[i].slot])
    requires d.fields[i].htype.Repeated? && m.slots[d.fields[i].slot].vs != []
    requires EncodeField(d.fields[i], m.slots[d.fields[i].slot]) == Some(e)
    ensures |next.slots| == d.slots && Progress(d, m, next, i + 1)
    ensures DecodeLoop(d, cur, seen, e + te) == DecodeLoop(d, next, seen, te)
    decreases d.fields[i], 2
  {
    var f := d.fields[i];
    var vs := m.slots[f.slot].vs;
    assert Untouched(d, cur, i);
    if Packable(f.ltype) {
      var body := EncodeItems(f.ltype, vs).value;
      PackedRoundTrip(f.ltype, f.htype.maxCount, [], vs, body);
      assert [] + vs == vs;
      SubstreamBack(body, te);
      StepRoundTrip(d, cur, seen, i, 2, Many(vs), Prefixed(body), te);
      next := With(d, cur, i, Many(vs));
      Advance(d, m, cur, i, Many(vs));
    } else {
      assert ItemsOk(f.ltype, vs);
      var ws, fin := TaggedRoundTrip(d, cur, seen, i, vs, [], e, te);
      assert [] + ws == ws;
      next := With(d, cur, i, Many(ws));
      Advance(d, m, cur, i, Many(ws));
    }
  }

  lemma SeenNext(d: Descriptor, seen: set<nat>, i: nat)
    requires i < |d.fields| && SeenUpTo(d, seen, i)
    ensures SeenUpTo(d, MarkSeen(d, i, seen), i + 1)
  {
  }

  lemma {:induction false} FieldRoundTrip(d: Descriptor, m: Message, cur: Message, seen: set<nat>, i: nat,
                        e: seq<byte>, te: seq<byte>) returns (next: Message)
    requires WellFormed(d) && MessageOk(d, m, false)
    requires i < |d.fields| && Progress(d, m, cur, i)
    requires FitsSlot(d.fields[i], m.slots[d.fields[i].slot])
    requires EncodeField(d.fields[i], m.slots[d.fields[i].slot]) == Some(e)
    ensures |next.slots| == d.slots && Progress(d, m, next, i + 1)
    ensures DecodeLoop(d, cur, seen, e + te) == DecodeLoop(d, next, MarkSeen(d, i, seen), te)
    decreases d.fields[i], 3
  {
    var f := d.fields[i];
    var s := m.slots[f.slot];
    assert FieldOk(f) && SlotOk(f, s, false);
    match s {
      case Plain(v) =>
        next := SingleRoundTrip(d, m, cur, seen, i, v, e, te);
      case Maybe(has, v) =>
        if has {
          next := SingleRoundTrip(d, m, cur, seen, i, v, e, te);
        } else {
          next := cur;
          AdvanceAbsent(d, m, cur, i);
          assert e + te == te;
        }
      case Many(vs) =>
        if vs != [] {
          next := ArrayRoundTrip(d, m, cur, seen, i, e, te);
        } else {
          next := cur;
          AdvanceAbsent(d, m, cur, i);
          assert e + te == te;
        }
      case Union(which, v) =>
        if which == f.tag {
          next := SingleRoundTrip(d, m, cur, seen, i, v, e, te);
        } else {
          next := cur;
          AdvanceAbsent(d, m, cur, i);
          assert e + te == te;
        }
    }
  }

  lemma {:induction false} FieldsRoundTrip(d: Descriptor, m: Message, cur: Message, seen: set<nat>, i: nat,
                         e: seq<byte>) returns (l: Loop)
    requires WellFormed(d) && MessageOk(d, m, false) && FitsMessage(d, m)
    requires i <= |d.fields| && Progress(d, m, cur, i) && SeenUpTo(d, seen, i)
    requires EncodeFrom(d, m, i) == Some(e)
    ensures DecodeLoop(d, cur, seen, e) == Some(l)
    ensures Progress(d, m, l.m, |d.fields|) && SeenUpTo(d, l.seen, |d.fields|)
    ensures l.rest == [] && !l.stopped
    decreases d, |d.fields| - i
  {
    if i == |d.fields| {
      l := Loop(cur, seen, [], false);
    } else {
      var fe := EncodeField(d.fields[i], m.slots[d.fields[i].slot]).value;
      var te := EncodeFrom(d, m, i + 1).value;
      var next := FieldRoundTrip(d, m, cur, seen, i, fe, te);
      SeenNext(d, seen, i);
      l := FieldsRoundTrip(d, m, next, MarkSeen(d, i, seen), i + 1, te);
    }
  }

  /** Decoding what was encoded succeeds, consumes every byte and yields an
      equal message, for every well-formed descriptor and every message that
      fits it, at every nesting depth. */
  lemma {:induction false} MessageRoundTrip(d: Descriptor, m: Message, e: seq<byte>) returns (l: Loop)
    requires WellFormed(d) && MessageOk(d, m, false) && FitsMessage(d, m)
    requires Encode(d, m) == Some(e)
    ensures DecodeNoinit(d, Defaults(d), e) == Some(l)
    ensures l.rest == [] && !l.stopped && SameMessage(d, m, l.m)
    decreases d, |d.fields| + 1
  {
    DefaultsSlots(d);
    forall j | 0 <= j < |d.fields|
      ensures Untouched(d, Defaults(d), j)
    {
      assert FieldOk(d.fields[j]);
      assert Defaults(d).slots[d.fields[j].slot] == DefaultSlot(d.fields[j]);
    }
    l := FieldsRoundTrip(d, m, Defaults(d), {}, 0, e);
    forall j | 0 <= j < |d.fields|
      ensures SameSlot(d.fields[j], m.slots[d.fields[j].slot], l.m.slots[d.fields[j].slot])
    {
      assert Arrived(d, m, l.m, j);
    }
  }

  // -- The condition on lengths is exact ---------------------------------------------------

  lemma SubstreamRefused(b: seq<byte>, tail: seq<byte>)
    requires TWO32 <= |b| < TWO63
    ensures Substream(Prefixed(b) + tail) == None
  {
    assert Prefixed(b) + tail == VarintBytes(|b|) + (b + tail);
    Varint32Refuses(|b|, b + tail);
  }

  lemma {:induction false} ValueRefused(lt: LType, v: Value, prev: Value, e: seq<byte>, tail: seq<byte>)
    requires LTypeOk(lt) && ValueOk(lt, v, false) && !FitsValue(lt, v)
    requires EncodeValue(lt, v) == Some(e) && |e| < TWO63
    requires prev == MsgV(Defaults(lt.sub))
    ensures DecodeValue(lt, prev, e + tail) == None
    decreases lt, 0
  {
    var body := EncodeFrom(lt.sub, v.m, 0).value;
    if |body| >= TWO32 {
      SubstreamRefused(body, tail);
    } else {
      MessageRefused(lt.sub, v.m, body);
      SubstreamBack(body, tail);
    }
  }

  /** The loop fails where the field's decoder does. */
  lemma StepRefused(d: Descriptor, cur: Message, seen: set<nat>, i: nat, wt: nat, ve: seq<byte>, te: seq<byte>)
    requires WellFormed(d) && |cur.slots| == d.slots && i < |d.fields| && wt < 8
    requires FieldOk(d.fields[i])
    requires DecodeField(d.fields[i], cur.slots[d.fields[i].slot], wt, ve + te) == None
    ensures DecodeLoop(d, cur, seen, TagBytes(wt, d.fields[i].tag) + ve + te) == None
  {
    var tag := d.fields[i].tag;
    TagBack(wt, tag, ve + te);
    assert TagBytes(wt, tag) + ve + te == TagBytes(wt, tag) + (ve + te);
    FindOwn(d, i, 0);
    assert Find(d, tag) == Some(i);
  }

  lemma {:induction false} SingleRefused(d: Descriptor, cur: Message, seen: set<nat>, i: nat, v: Value, e: seq<byte>,
      te: seq<byte>)
    requires WellFormed(d) && |cur.slots| == d.slots && i < |d.fields| && FieldOk(d.fields[i])
    requires LTypeOk(d.fields[i].ltype) && ValueOk(d.fields[i].ltype, v, false) && !FitsValue(d.fields[i].ltype, v)
    requires StartValue(d.fields[i], cur.slots[d.fields[i].slot]) == InitValue(d.fields[i])
    requires EncodeOne(d.fields[i].tag, d.fields[i].ltype, v) == Some(e) && |e| < TWO63
    ensures DecodeLoop(d, cur, seen, e + te) == None
    decreases d.fields[i], 1, 0
  {
    var f := d.fields[i];
    var ve := EncodeValue(f.ltype, v).value;
    ValueRefused(f.ltype, v, InitValue(f), ve, te);
    StepRefused(d, cur, seen, i, WireType(f.ltype), ve, te);
  }

  lemma {:induction false} TaggedRefused(d: Descriptor, cur: Message, seen: set<nat>, i: nat,
      vs: seq<Value>, got: seq<Value>,
                       e: seq<byte>, te: seq<byte>)
    requires WellFormed(d) && |cur.slots| == d.slots && i < |d.fields| && FieldOk(d.fields[i])
    requires !Packable(d.fields[i].ltype) && d.fields[i].htype.Repeated? && LTypeOk(d.fields[i].ltype)
    requires cur.slots[d.fields[i].slot] == Many(got) && |got| + |vs| <= d.fields[i].htype.maxCount
    requires forall k :: 0 <= k < |vs| ==> ValueOk(d.fields[i].ltype, vs[k], false)
    requires exists k :: 0 <= k < |vs| && !FitsValue(d.fields[i].ltype, vs[k])
    requires EncodeTagged(d.fields[i].tag, d.fields[i].ltype, vs) == Some(e) && |e| < TWO63
    ensures DecodeLoop(d, cur, seen, e + te) == None
    decreases d.fields[i], 1, |vs|
  {
    var f := d.fields[i];
    var one, rest := TaggedCons(f.tag, f.ltype, vs, e);
    Assoc(one, rest, te);
    hide EncodeTagged, DecodeLoop, EncodeOne;
    if FitsValue(f.ltype, vs[0]) {
      var w := ItemRoundTrip(d, cur, seen, i, vs[0], got, one, rest + te);
      WithTwice(d, cur, i, Many(got + [w]), Many(got));
      var k :| 0 <= k < |vs| && !FitsValue(f.ltype, vs[k]);
      assert vs[1..][k - 1] == vs[k];
      TaggedRefused(d, With(d, cur, i, Many(got + [w])), seen, i, vs[1..], got + [w], rest, te);
    } else {
      SingleRefused(d, cur, seen, i, vs[0], one, rest + te);
    }
  }

  lemma {:induction false} FieldRefused(d: Descriptor, m: Message, cur: Message, seen: set<nat>, i: nat, e: seq<byte>,
      te: seq<byte>)
    requires WellFormed(d) && MessageOk(d, m, false) && i < |d.fields| && Progress(d, m, cur, i)
    requires !FitsSlot(d.fields[i], m.slots[d.fields[i].slot])
    requires EncodeField(d.fields[i], m.slots[d.fields[i].slot]) == Some(e) && |e| < TWO63
    ensures DecodeLoop(d, cur, seen, e + te) == None
    decreases d.fields[i], 3
  {
    var f := d.fields[i];
    var s := m.slots[f.slot];
    assert FieldOk(f) && SlotOk(f, s, false) && LTypeOk(f.ltype);
    assert Untouched(d, cur, i);
    if s.Many? && Packable(f.ltype) {
      var body := EncodeItems(f.ltype, s.vs).value;
      assert s.vs != [];
      assert |body| < |e|;
      SubstreamRefused(body, te);
      StepRefused(d, cur, seen, i, 2, Prefixed(body), te);
    } else if s.Many? {
      TaggedRefused(d, cur, seen, i, s.vs, [], e, te);
    } else {
      assert StartValue(f, cur.slots[f.slot]) == InitValue(f);
      SingleRefused(d, cur, seen, i, s.v, e, te);
    }
  }

  lemma {:induction false} FieldsRefused(d: Descriptor, m: Message, cur: Message, seen: set<nat>, i: nat, e: seq<byte>)
    requires WellFormed(d) && MessageOk(d, m, false)
    requires i <= |d.fields| && Progress(d, m, cur, i) && SeenUpTo(d, seen, i)
    requires EncodeFrom(d, m, i) == Some(e) && |e| < TWO63
    requires exists j :: i <= j < |d.fields| && !FitsSlot(d.fields[j], m.slots[d.fields[j].slot])
    ensures DecodeLoop(d, cur, seen, e) == None
    decreases d, |d.fields| - i
  {
    var fe := EncodeField(d.fields[i], m.slots[d.fields[i].slot]).value;
    var te := EncodeFrom(d, m, i + 1).value;
    if FitsSlot(d.fields[i], m.slots[d.fields[i].slot]) {
      var next := FieldRoundTrip(d, m, cur, seen, i, fe, te);
      SeenNext(d, seen, i);
      FieldsRefused(d, m, next, MarkSeen(d, i, seen), i + 1, te);
    } else {
      FieldRefused(d, m, cur, seen, i, fe, te);
    }
  }

  lemma {:induction false} MessageRefused(d: Descriptor, m: Message, e: seq<byte>)
    requires WellFormed(d) && MessageOk(d, m, false) && !FitsMessage(d, m)
    requires Encode(d, m) == Some(e) && |e| < TWO63
    ensures DecodeNoinit(d, Defaults(d), e) == None
    decreases d, |d.fields| + 1
  {
    DefaultsSlots(d);
    forall j | 0 <= j < |d.fields|
      ensures Untouched(d, Defaults(d), j)
    {
      assert FieldOk(d.fields[j]);
      assert Defaults(d).slots[d.fields[j].slot] == DefaultSlot(d.fields[j]);
    }
    FieldsRefused(d, m, Defaults(d), {}, 0, e);
  }

  // -- Every message that fits its storage can be written -----------------------------------

  lemma {:induction false} ValueEncodes(lt: LType, v: Value)
    requires LTypeOk(lt) && ValueOk(lt, v, false)
    ensures EncodeValue(lt, v).Some?
    decreases lt, 0
  {
    if lt.LSubmessage? {
      EncodeSucceeds(lt.sub, v.m, 0);
    }
  }

  lemma {:induction false} ItemsEncode(tag: nat, lt: LType, vs: seq<Value>)
    requires LTypeOk(lt) && forall k :: 0 <= k < |vs| ==> ValueOk(lt, vs[k], false)
    ensures EncodeItems(lt, vs).Some? && EncodeTagged(tag, lt, vs).Some?
    decreases lt, 1, |vs|
  {
    if vs != [] {
      ValueEncodes(lt, vs[0]);
      ItemsEncode(tag, lt, vs[1..]);
    }
  }

  lemma {:induction false} FieldEncodes(f: Field, s: Slot)
    requires FieldOk(f) && SlotOk(f, s, false)
    ensures EncodeField(f, s).Some?
    decreases f
  {
    assert LTypeOk(f.ltype);
    if s.Many? {
      ItemsEncode(f.tag, f.ltype, s.vs);
    } else if !(s.Maybe? && !s.has) && !(s.Union? && s.which != f.tag) {
      ValueEncodes(f.ltype, s.v);
    }
  }

  lemma {:induction false} EncodeSucceeds(d: Descriptor, m: Message, i: nat)
    requires WellFormed(d) && MessageOk(d, m, false) && i <= |d.fields|
    ensures EncodeFrom(d, m, i).Some?
    decreases d, |d.fields| - i
  {
    if i < |d.fields| {
      FieldEncodes(d.fields[i], m.slots[d.fields[i].slot]);
      EncodeSucceeds(d, m, i + 1);
    }
  }

  /** A message survives encoding and decoding exactly when all its length
      prefixes are below 2^32. */
  lemma RoundTripExact(d: Descriptor, m: Message, e: seq<byte>)
    requires WellFormed(d) && MessageOk(d, m, false) && Encode(d, m) == Some(e) && |e| < TWO63
    ensures FitsMessage(d, m) <==> Decode(d, e).Some?
    ensures FitsMessage(d, m) ==>
              SameMessage(d, m, Decode(d, e).value.m) && Decode(d, e).value.rest == []
  {
    if FitsMessage(d, m) {
      var l := MessageRoundTrip(d, m, e);
    } else {
      MessageRefused(d, m, e);
    }
  }
}
