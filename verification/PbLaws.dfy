/** Laws of the decoder on arbitrary byte strings: it is a homomorphism from
    concatenation to updates, unknown fields change nothing, whatever it
    accepts fits the destination's storage, and frames decode one by one. */
module PbLaws {
  import opened Bytes
  import opened Options
  import opened Varint
  import opened PbModel
  import opened PbWire
  import opened PbRoundTrip

  // -- What a reader did not read cannot change its result ---------------------------

  lemma {:induction false} Varint64Extend(bs: seq<byte>, k: nat, acc: nat, ext: seq<byte>)
    requires Varint64From(bs, k, acc).Some?
    ensures Varint64From(bs + ext, k, acc)
         == Some(Parsed(Varint64From(bs, k, acc).value.val, Varint64From(bs, k, acc).value.rest + ext))
    decreases |bs|
  {
    assert (bs + ext)[1..] == bs[1..] + ext;
    if bs[0] >= 128 {
      Varint64Extend(bs[1..], k + 1, (acc + Shift7(bs[0] % 128, k)) % TWO64, ext);
    }
  }

  lemma {:induction false} Varint32Extend(bs: seq<byte>, k: nat, acc: nat, ext: seq<byte>)
    requires acc < TWO32 && Varint32From(bs, k, acc).Some?
    ensures Varint32From(bs + ext, k, acc)
         == Some(Parsed(Varint32From(bs, k, acc).value.val, Varint32From(bs, k, acc).value.rest + ext))
    decreases |bs|
  {
    assert (bs + ext)[1..] == bs[1..] + ext;
    if bs[0] >= 128 {
      Varint32Extend(bs[1..], k + 1, Accumulate32(acc, k, bs[0]), ext);
    }
  }

  lemma TakeExtend(n: nat, bs: seq<byte>, ext: seq<byte>)
    requires Take(n, bs).Some?
    ensures Take(n, bs + ext) == Some(Parsed(Take(n, bs).value.val, Take(n, bs).value.rest + ext))
  {
    assert (bs + ext)[..n] == bs[..n] && (bs + ext)[n..] == bs[n..] + ext;
  }

  lemma SubstreamExtend(bs: seq<byte>, ext: seq<byte>)
    requires Substream(bs).Some?
    ensures Substream(bs + ext) == Some(Parsed(Substream(bs).value.val, Substream(bs).value.rest + ext))
  {
    Varint32Extend(bs, 0, 0, ext);
    var p := Varint32(bs).value;
    TakeExtend(p.val, p.rest, ext);
  }

  lemma {:induction false} SkipVarintExtend(bs: seq<byte>, ext: seq<byte>)
    requires SkipVarint(bs).Some?
    ensures SkipVarint(bs + ext) == Some(SkipVarint(bs).value + ext)
  {
    assert (bs + ext)[1..] == bs[1..] + ext;
    if bs[0] >= 128 {
      SkipVarintExtend(bs[1..], ext);
    }
  }

  lemma SkipExtend(wt: nat, bs: seq<byte>, ext: seq<byte>)
    requires Skip(wt, bs).Some?
    ensures Skip(wt, bs + ext) == Some(Skip(wt, bs).value + ext)
  {
    match wt
    case 0 => SkipVarintExtend(bs, ext);
    case 1 => TakeExtend(8, bs, ext);
    case 2 => SubstreamExtend(bs, ext);
    case 5 => TakeExtend(4, bs, ext);
    case _ =>
  }

  lemma IntExtend(lt: LType, bs: seq<byte>, ext: seq<byte>)
    requires Packable(lt) && LTypeOk(lt) && DecodeInt(lt, bs).Some?
    ensures DecodeInt(lt, bs + ext)
         == Some(Parsed(DecodeInt(lt, bs).value.val, DecodeInt(lt, bs).value.rest + ext))
  {
    match lt
    case LVarint(_) => Varint64Extend(bs, 0, 0, ext);
    case LUvarint(_) => Varint64Extend(bs, 0, 0, ext);
    case LSvarint(_) => Varint64Extend(bs, 0, 0, ext);
    case LFixed32 => TakeExtend(4, bs, ext);
    case LFixed64 => TakeExtend(8, bs, ext);
  }

  lemma BytesExtend(lt: LType, bs: seq<byte>, ext: seq<byte>)
    requires (lt.LBytes? || lt.LString? || lt.LFixedBytes?) && DecodeBytes(lt, bs).Some?
    ensures DecodeBytes(lt, bs + ext)
         == Some(Parsed(DecodeBytes(lt, bs).value.val, DecodeBytes(lt, bs).value.rest + ext))
  {
    Varint32Extend(bs, 0, 0, ext);
    var len := Varint32(bs).value;
    if len.val <= |len.rest| {
      TakeExtend(len.val, len.rest, ext);
    }
  }

  lemma ValueExtend(lt: LType, prev: Value, bs: seq<byte>, ext: seq<byte>)
    requires LTypeOk(lt) && DecodeValue(lt, prev, bs).Some?
    ensures DecodeValue(lt, prev, bs + ext)
         == Some(Parsed(DecodeValue(lt, prev, bs).value.val, DecodeValue(lt, prev, bs).value.rest + ext))
  {
    if Packable(lt) {
      IntExtend(lt, bs, ext);
    } else if !lt.LSubmessage? {
      BytesExtend(lt, bs, ext);
    } else {
      SubstreamExtend(bs, ext);
    }
  }

  lemma FieldExtend(f: Field, s: Slot, wt: nat, bs: seq<byte>, ext: seq<byte>)
    requires FieldOk(f) && DecodeField(f, s, wt, bs).Some?
    ensures DecodeField(f, s, wt, bs + ext)
         == Some(Parsed(DecodeField(f, s, wt, bs).value.val, DecodeField(f, s, wt, bs).value.rest + ext))
  {
    assert LTypeOk(f.ltype);
    if f.htype.Repeated? && wt == 2 && Packable(f.ltype) {
      SubstreamExtend(bs, ext);
    } else {
      ValueExtend(f.ltype, StartValue(f, s), bs, ext);
    }
  }

  lemma TagExtend(bs: seq<byte>, ext: seq<byte>)
    requires ReadTag(bs).Tagged?
    ensures ReadTag(bs + ext) == Tagged(ReadTag(bs).tag, ReadTag(bs).wt, ReadTag(bs).rest + ext)
  {
    Varint32Extend(bs, 0, 0, ext);
  }

  // -- Homomorphism --------------------------------------------------------------------

  /** One turn of the decoding loop on a non-empty stream. */
  datatype Turn = Failed | Stop(rest: seq<byte>) | Continue(m: Message, seen: set<nat>, rest: seq<byte>)

  function TurnOf(d: Descriptor, m: Message, seen: set<nat>, bs: seq<byte>): (t: Turn)
    requires WellFormed(d) && |m.slots| == d.slots
    ensures t.Continue? ==> |t.m.slots| == d.slots && |t.rest| < |bs|
  {
    match ReadTag(bs)
    case TagFailed => Failed
    case TagStop(rest) => Stop(rest)
    case Tagged(tag, wt, rest) => TaggedTurn(d, m, seen, tag, wt, rest)
  }

  /** The turn after its tag. */
  function TaggedTurn(d: Descriptor, m: Message, seen: set<nat>, tag: nat, wt: nat, rest: seq<byte>): (t: Turn)
    requires WellFormed(d) && |m.slots| == d.slots
    ensures t.Continue? ==> |t.m.slots| == d.slots && |t.rest| <= |rest|
  {
    match Find(d, tag)
    case None =>
      if d.fields == [] && tag == 0 then Failed
      else (match Skip(wt, rest) case None => Failed case Some(r) => Continue(m, seen, r))
    case Some(i) =>
      assert FieldOk(d.fields[i]);
      match DecodeField(d.fields[i], m.slots[d.fields[i].slot], wt, rest)
      case None => Failed
      case Some(p) => Continue(With(d, m, i, p.val), MarkSeen(d, i, seen), p.rest)
  }

  lemma LoopTurn(d: Descriptor, m: Message, seen: set<nat>, bs: seq<byte>)
    requires WellFormed(d) && |m.slots| == d.slots && bs != []
    ensures DecodeLoop(d, m, seen, bs) ==
            match TurnOf(d, m, seen, bs)
            case Failed => None
            case Stop(rest) => Some(Loop(m, seen, rest, true))
            case Continue(m', seen', rest) => DecodeLoop(d, m', seen', rest)
  {
  }

  lemma TurnExtend(d: Descriptor, m: Message, seen: set<nat>, bs: seq<byte>, ext: seq<byte>)
    requires WellFormed(d) && |m.slots| == d.slots && TurnOf(d, m, seen, bs).Continue?
    ensures TurnOf(d, m, seen, bs + ext)
         == Continue(TurnOf(d, m, seen, bs).m, TurnOf(d, m, seen, bs).seen, TurnOf(d, m, seen, bs).rest + ext)
  {
    TagExtend(bs, ext);
    var t := ReadTag(bs);
    match Find(d, t.tag)
    case None => SkipExtend(t.wt, t.rest, ext);
    case Some(i) =>
      assert FieldOk(d.fields[i]);
      FieldExtend(d.fields[i], m.slots[d.fields[i].slot], t.wt, t.rest, ext);
  }

  /** If the loop exhausts `a` without meeting a zero tag, it runs through
      `a + b` as through `a` and then `b`. */
  lemma {:induction false} LoopAppend(d: Descriptor, m: Message, seen: set<nat>, a: seq<byte>, b: seq<byte>)
    requires WellFormed(d) && |m.slots| == d.slots
    requires DecodeLoop(d, m, seen, a).Some? && !DecodeLoop(d, m, seen, a).value.stopped
    ensures var l := DecodeLoop(d, m, seen, a).value;
            DecodeLoop(d, m, seen, a + b) == DecodeLoop(d, l.m, l.seen, b)
    decreases |a|
  {
    if a == [] {
      assert a + b == b;
    } else {
      LoopTurn(d, m, seen, a);
      LoopTurn(d, m, seen, a + b);
      var t := TurnOf(d, m, seen, a);
      TurnExtend(d, m, seen, a, b);
      LoopAppend(d, t.m, t.seen, t.rest, b);
    }
  }

  /** Marks from elsewhere only add to fields_seen. */
  lemma {:induction false} LoopSeen(d: Descriptor, m: Message, seen: set<nat>, more: set<nat>, bs: seq<byte>)
    requires WellFormed(d) && |m.slots| == d.slots
    ensures var l, n := DecodeLoop(d, m, seen, bs), DecodeLoop(d, m, seen + more, bs);
            match l
            case None => n == None
            case Some(x) => n == Some(Loop(x.m, x.seen + more, x.rest, x.stopped)) && seen <= x.seen
    decreases |bs|
  {
    if bs != [] {
      LoopTurn(d, m, seen, bs);
      LoopTurn(d, m, seen + more, bs);
      var t := TurnOf(d, m, seen, bs);
      TurnSeen(d, m, seen, more, bs);
      if t.Continue? {
        LoopSeen(d, t.m, t.seen, more, t.rest);
      }
    }
  }

  lemma TurnSeen(d: Descriptor, m: Message, seen: set<nat>, more: set<nat>, bs: seq<byte>)
    requires WellFormed(d) && |m.slots| == d.slots
    ensures var t, u := TurnOf(d, m, seen, bs), TurnOf(d, m, seen + more, bs);
            if t.Continue? then u == Continue(t.m, t.seen + more, t.rest) && seen <= t.seen else u == t
  {
    match ReadTag(bs)
    case TagFailed =>
    case TagStop(_) =>
    case Tagged(tag, wt, rest) =>
      match Find(d, tag)
      case None =>
      case Some(i) =>
        MarkMore(d, i, seen, more);
  }

  lemma MarkMore(d: Descriptor, i: nat, seen: set<nat>, more: set<nat>)
    requires i < |d.fields|
    ensures MarkSeen(d, i, seen + more) == MarkSeen(d, i, seen) + more && seen <= MarkSeen(d, i, seen)
  {
    var k := RequiredBefore(d, i);
    assert (seen + more) + {k} == (seen + {k}) + more;
  }

  /** Decoding is a homomorphism: if `a` decodes onto `m` using all its bytes
      with no zero tag, and `b` decodes onto the result, then `a + b` decodes
      onto `m` to the same message. */
  lemma DecodeAppend(d: Descriptor, m: Message, a: seq<byte>, b: seq<byte>)
    requires WellFormed(d) && |m.slots| == d.slots
    requires DecodeNoinit(d, m, a).Some? && !DecodeNoinit(d, m, a).value.stopped
    requires DecodeNoinit(d, DecodeNoinit(d, m, a).value.m, b).Some?
    ensures var r := DecodeNoinit(d, DecodeNoinit(d, m, a).value.m, b).value;
            && DecodeNoinit(d, m, a + b).Some?
            && DecodeNoinit(d, m, a + b).value.m == r.m
            && DecodeNoinit(d, m, a + b).value.rest == r.rest
            && DecodeNoinit(d, m, a + b).value.stopped == r.stopped
  {
    var l := DecodeLoop(d, m, {}, a).value;
    LoopAppend(d, m, {}, a, b);
    LoopSeen(d, l.m, {}, l.seen, b);
    assert {} + l.seen == l.seen;
  }

  /** A complete field whose tag is not in the table: what pb_skip_field skips. */
  predicate UnknownField(d: Descriptor, u: seq<byte>) {
    && ReadTag(u).Tagged? && Find(d, ReadTag(u).tag).None?
    && !(d.fields == [] && ReadTag(u).tag == 0)
    && Skip(ReadTag(u).wt, ReadTag(u).rest) == Some([])
  }

  /** Inserting an unknown field between two top-level fields changes nothing:
      neither the message, nor whether decoding succeeds. */
  lemma UnknownFieldIgnored(d: Descriptor, m: Message, a: seq<byte>, u: seq<byte>, b: seq<byte>)
    requires WellFormed(d) && |m.slots| == d.slots && UnknownField(d, u)
    requires DecodeLoop(d, m, {}, a).Some? && !DecodeLoop(d, m, {}, a).value.stopped
    ensures DecodeNoinit(d, m, a + u + b) == DecodeNoinit(d, m, a + b)
  {
    var l := DecodeLoop(d, m, {}, a).value;
    LoopAppend(d, m, {}, a, b);
    LoopAppend(d, m, {}, a, u + b);
    assert a + u + b == a + (u + b);
    assert u != [];
    LoopTurn(d, l.m, l.seen, u + b);
    assert TurnOf(d, l.m, l.seen, u) == Continue(l.m, l.seen, []);
    TurnExtend(d, l.m, l.seen, u, b);
    assert [] + b == b;
  }

  // -- Storage -----------------------------------------------------------------------------

  lemma {:induction false} PackedStored(lt: LType, maxCount: nat, vs: seq<Value>, body: seq<byte>)
    requires Packable(lt) && LTypeOk(lt) && |vs| <= maxCount
    requires forall k :: 0 <= k < |vs| ==> ScalarOk(lt, vs[k])
    requires DecodePacked(lt, maxCount, vs, body).Some?
    ensures var ws := DecodePacked(lt, maxCount, vs, body).value;
            |ws| <= maxCount && forall k :: 0 <= k < |ws| ==> ScalarOk(lt, ws[k])
    decreases |body|
  {
    if body != [] {
      var p := DecodeInt(lt, body).value;
      PackedStored(lt, maxCount, vs + [p.val], p.rest);
    }
  }

  lemma {:induction false} ValueStored(lt: LType, prev: Value, bs: seq<byte>)
    requires LTypeOk(lt) && DecodeValue(lt, prev, bs).Some?
    requires lt.LSubmessage? ==> ValueOk(lt, prev, true)
    ensures ValueOk(lt, DecodeValue(lt, prev, bs).value.val, true)
    decreases |bs|, 0
  {
    if lt.LSubmessage? {
      var p := Substream(bs).value;
      LoopStored(lt.sub, prev.m, {}, p.val);
    }
  }

  lemma {:induction false} FieldStored(f: Field, s: Slot, wt: nat, bs: seq<byte>)
    requires FieldOk(f) && DecodeField(f, s, wt, bs).Some? && SlotOk(f, s, true)
    ensures SlotOk(f, DecodeField(f, s, wt, bs).value.val, true)
    ensures f.htype.Oneof? ==> DecodeField(f, s, wt, bs).value.val.which == f.tag
    decreases |bs|, 1
  {
    assert LTypeOk(f.ltype);
    if f.htype.Repeated? && wt == 2 && Packable(f.ltype) {
      PackedStored(f.ltype, f.htype.maxCount, s.vs, Substream(bs).value.val);
    } else {
      InitValueOk(f);
      ValueStored(f.ltype, StartValue(f, s), bs);
    }
  }

  lemma WithStored(d: Descriptor, m: Message, i: nat, s: Slot)
    requires WellFormed(d) && MessageOk(d, m, true) && i < |d.fields|
    requires FieldOk(d.fields[i]) && SlotOk(d.fields[i], s, true)
    requires d.fields[i].htype.Oneof? ==> s.Union? && s.which == d.fields[i].tag
    ensures MessageOk(d, With(d, m, i, s), true)
  {
    forall j | 0 <= j < |d.fields|
      ensures SlotOk(d.fields[j], With(d, m, i, s).slots[d.fields[j].slot], true)
    {
      assert FieldOk(d.fields[j]) && SlotOk(d.fields[j], m.slots[d.fields[j].slot], true);
      if i < j {
        assert Separate(d.fields[i], d.fields[j]);
      } else if j < i {
        assert Separate(d.fields[j], d.fields[i]);
      }
    }
  }

  /** Whatever bytes arrive, what the decoder accepts fits the destination:
      integers their width, arrays their maximum count, strings their storage
      with a NUL, byte fields their capacity, at every nesting level. */
  lemma {:induction false} LoopStored(d: Descriptor, m: Message, seen: set<nat>, bs: seq<byte>)
    requires WellFormed(d) && MessageOk(d, m, true) && DecodeLoop(d, m, seen, bs).Some?
    ensures MessageOk(d, DecodeLoop(d, m, seen, bs).value.m, true)
    decreases |bs|, 2
  {
    if bs != [] {
      LoopTurn(d, m, seen, bs);
      match ReadTag(bs)
      case TagStop(_) =>
      case Tagged(tag, wt, rest) =>
        var t := TurnOf(d, m, seen, bs);
        match Find(d, tag) {
          case None =>
          case Some(i) =>
            var f := d.fields[i];
            assert FieldOk(f) && SlotOk(f, m.slots[f.slot], true);
            FieldStored(f, m.slots[f.slot], wt, rest);
            WithStored(d, m, i, DecodeField(f, m.slots[f.slot], wt, rest).value.val);
        }
        LoopStored(d, t.m, t.seen, t.rest);
    }
  }

  /** pb_decode on arbitrary bytes yields a message that fits its struct, or
      fails. */
  lemma DecodeStored(d: Descriptor, bs: seq<byte>)
    requires WellFormed(d) && Decode(d, bs).Some?
    ensures MessageOk(d, Decode(d, bs).value.m, true)
  {
    DefaultsOk(d);
    LoopStored(d, Defaults(d), {}, bs);
  }

  // -- Frames --------------------------------------------------------------------------------

  function EncodeFrames(d: Descriptor, ms: seq<Message>): Option<seq<byte>> {
    if ms == [] then Some([]) else Append(EncodeDelimited(d, ms[0]), EncodeFrames(d, ms[1..]))
  }

  /** pb_decode_delimited, again and again until the stream is used up. */
  function DecodeFrames(d: Descriptor, bs: seq<byte>): Option<seq<Message>>
    requires WellFormed(d)
    decreases |bs|
  {
    if bs == [] then Some([])
    else
      match DecodeDelimited(d, bs)
      case None => None
      case Some(p) => match DecodeFrames(d, p.rest) case None => None case Some(ms) => Some([p.val] + ms)
  }

  predicate AllFit(d: Descriptor, ms: seq<Message>)
    requires WellFormed(d)
  {
    forall k :: 0 <= k < |ms| ==>
      && MessageOk(d, ms[k], false) && FitsMessage(d, ms[k])
      && (Encode(d, ms[k]).Some? ==> |Encode(d, ms[k]).value| < TWO32)
  }

  /** A run of delimited messages decodes frame by frame. */
  lemma {:induction false} FramesRoundTrip(d: Descriptor, ms: seq<Message>, e: seq<byte>) returns (ns: seq<Message>)
    requires WellFormed(d) && AllFit(d, ms) && EncodeFrames(d, ms) == Some(e)
    ensures DecodeFrames(d, e) == Some(ns)
    ensures |ns| == |ms| && forall k :: 0 <= k < |ms| ==> SameMessage(d, ms[k], ns[k])
    decreases |ms|
  {
    if ms == [] {
      ns := [];
    } else {
      var body := Encode(d, ms[0]).value;
      var rest := EncodeFrames(d, ms[1..]).value;
      assert e == Prefixed(body) + rest && e != [];
      assert AllFit(d, ms[1..]);
      hide EncodeFrames, DecodeNoinit, EncodeFrom, FitsMessage, MessageOk, SameMessage;
      var l := MessageRoundTrip(d, ms[0], body);
      SubstreamBack(body, rest);
      var ns' := FramesRoundTrip(d, ms[1..], rest);
      ns := [l.m] + ns';
      assert forall k :: 1 <= k < |ms| ==> ms[k] == ms[1..][k - 1] && ns[k] == ns'[k - 1];
    }
  }

  // -- Inputs that fail --------------------------------------------------------------------

  /** A key of one byte with tag 0.  The key 0 ends a message, whatever its table; a key
      from 1 to 7 is skipped, except by an empty table, whose terminator row it matches. */
  lemma ZeroTags(d: Descriptor, m: Message, seen: set<nat>, key: byte, rest: seq<byte>)
    requires WellFormed(d) && |m.slots| == d.slots && key < 8
    ensures DecodeLoop(d, m, seen, [key] + rest) ==
            if key == 0 then Some(Loop(m, seen, rest, true))
            else if d.fields == [] then None
            else match Skip(key, rest) case None => None case Some(rest') => DecodeLoop(d, m, seen, rest')
  {
    hide Skip;
    var bs := [key] + rest;
    assert Varint32(bs) == Some(Parsed(key, rest)) by {
      assert bs[1..] == rest;
      OneByte(key, rest);
    }
    assert forall i :: 0 <= i < |d.fields| ==> FieldOk(d.fields[i]);
  }

  lemma OneByte(b: byte, rest: seq<byte>)
    requires b < 128
    ensures Varint32([b] + rest) == Some(Parsed(b, rest))
  {
    assert VarintBytes(b) == [b];
    Varint32RoundTrip(b, rest);
  }

  lemma {:induction false} Fixed64Items(vs: seq<Value>)
    requires forall k :: 0 <= k < |vs| ==> vs[k] == IntV(0)
    ensures EncodeItems(LFixed64, vs).Some? && |EncodeItems(LFixed64, vs).value| == 8 * |vs|
  {
    if vs != [] {
      Fixed64Items(vs[1..]);
      Pow256Values();
    }
  }

  /** A message that fits its struct and can be encoded, but not decoded again: a packed
      array of 2^29 numbers of eight bytes has a length prefix of 2^32. */
  lemma LongArrayRefused() returns (d: Descriptor, m: Message, e: seq<byte>)
    ensures WellFormed(d) && MessageOk(d, m, false) && Encode(d, m) == Some(e)
    ensures !FitsMessage(d, m) && Decode(d, e) == None
  {
    var n := 0x2000_0000;
    var f := Field(1, Repeated(n), LFixed64, 0, IntV(0), Placement(0, 0, 8));
    d := Descriptor([f], 1);
    var vs := seq(n, _ => IntV(0));
    m := Message([Many(vs)]);
    Fixed64Items(vs);
    OneArray(f, vs, m, d);
    e := Encode(d, m).value;
    assert FieldOk(d.fields[0]) && WellFormed(d);
    assert MessageOk(d, m, false) by {
      assert SlotOk(f, Many(vs), false);
    }
    assert !FitsMessage(d, m) by {
      assert !FitsSlot(d.fields[0], m.slots[0]);
    }
    hide WellFormed, MessageOk, FitsMessage, Encode, Decode;
    RoundTripExact(d, m, e);
  }

  lemma OneArray(f: Field, vs: seq<Value>, m: Message, d: Descriptor)
    requires f.htype.Repeated? && f.ltype == LFixed64 && f.slot == 0 && 0 < |vs| <= f.htype.maxCount && f.tag == 1
    requires m == Message([Many(vs)]) && d == Descriptor([f], 1)
    requires EncodeItems(LFixed64, vs).Some? && |EncodeItems(LFixed64, vs).value| < TWO48
    ensures Encode(d, m).Some? && |Encode(d, m).value| < TWO63
  {
    var body := EncodeItems(LFixed64, vs).value;
    hide EncodeItems, VarintBytes;
    Varint64RoundTrip(|body|, []);
    Varint64RoundTrip(10, []);
    assert EncodeField(f, Many(vs)) == Some(TagBytes(2, 1) + Prefixed(body));
    assert EncodeFrom(d, m, 1) == Some([]);
  }
}
