/** The wire format, stated outright: what a key announces, what is passed over, and that
    a reader passes over every field it does not know, whoever wrote it. */
module PbFormat {
  import opened Bytes
  import opened Options
  import opened Varint
  import opened PbLaws
  import opened PbModel
  import opened PbRoundTrip
  import opened PbWire

  /** What may follow a key with this wire type: a varint, eight bytes, a string with its
      length in front, or four bytes. */
  predicate Format(wt: nat, body: seq<byte>) {
    match wt
    case 0 => IsVarint(body)
    case 1 => |body| == 8
    case 2 => Varint32(body).Some? && Varint32(body).value.val == |Varint32(body).value.rest|
    case 5 => |body| == 4
    case _ => false
  }

  lemma {:induction false} SkipWholeVarint(p: seq<byte>, te: seq<byte>)
    requires IsVarint(p)
    ensures SkipVarint(p + te) == Some(te)
  {
    VarintTail(p);
    assert (p + te)[1..] == p[1..] + te;
    if |p| > 1 {
      SkipWholeVarint(p[1..], te);
    } else {
      assert p[1..] + te == te;
    }
  }

  lemma {:induction false} SkippedVarint(bs: seq<byte>) returns (p: seq<byte>)
    requires SkipVarint(bs).Some?
    ensures IsVarint(p) && bs == p + SkipVarint(bs).value
  {
    if bs[0] < 128 {
      p := bs[..1];
    } else {
      var q := SkippedVarint(bs[1..]);
      ConsVarint(bs[0], q);
      p := [bs[0]] + q;
      assert bs == [bs[0]] + bs[1..];
    }
  }

  /** A varint is read the same whatever follows it. */
  lemma {:induction false} Varint32Alone(p: seq<byte>, k: nat, acc: nat, rest: seq<byte>)
    requires acc < TWO32 && IsVarint(p) && Varint32From(p + rest, k, acc).Some?
    ensures Varint32From(p, k, acc) == Some(Parsed(Varint32From(p + rest, k, acc).value.val, []))
    decreases |p|
  {
    hide Accumulate32, Overflows32;
    VarintTail(p);
    assert (p + rest)[1..] == p[1..] + rest;
    if |p| > 1 {
      Varint32Alone(p[1..], k + 1, Accumulate32(acc, k, p[0]), rest);
    }
  }

  /** A string with its length in front is passed over whole, and nothing else is. */
  lemma PrefixedExactly(bs: seq<byte>, n: nat)
    requires n <= |bs|
    ensures Substream(bs).Some? && Substream(bs).value.rest == bs[n..] <==> Format(2, bs[..n])
  {
    assert bs[..n] + bs[n..] == bs;
    if Format(2, bs[..n]) {
      SubstreamExtend(bs[..n], bs[n..]);
      assert [] + bs[n..] == bs[n..];
    }
    if Substream(bs).Some? && Substream(bs).value.rest == bs[n..] {
      var v := Varint32(bs).value;
      var p := Varint32Consumes(0, 0, bs);
      Varint32Alone(p, 0, 0, v.rest);
      assert |bs[n..]| == |v.rest| - v.val;
      assert bs[..n] == p + v.rest[..v.val];
      Varint32Extend(p, 0, 0, v.rest[..v.val]);
      assert [] + v.rest[..v.val] == v.rest[..v.val];
    }
  }

  lemma VarintExactly(bs: seq<byte>, n: nat)
    requires n <= |bs|
    ensures SkipVarint(bs) == Some(bs[n..]) <==> IsVarint(bs[..n])
  {
    assert bs[..n] + bs[n..] == bs;
    if IsVarint(bs[..n]) {
      SkipWholeVarint(bs[..n], bs[n..]);
    }
    if SkipVarint(bs) == Some(bs[n..]) {
      var p := SkippedVarint(bs);
      assert p == bs[..n];
    }
  }

  /** pb_skip_field passes over the `n` bytes in front if and only if they are what the
      wire type announces. */
  lemma SkipExactly(wt: nat, bs: seq<byte>, n: nat)
    requires n <= |bs|
    ensures Skip(wt, bs) == Some(bs[n..]) <==> Format(wt, bs[..n])
  {
    match wt
    case 0 => VarintExactly(bs, n);
    case 1 => assert n == 8 <==> |bs[n..]| == |bs| - 8;
    case 2 => PrefixedExactly(bs, n);
    case 5 => assert n == 4 <==> |bs[n..]| == |bs| - 4;
    case _ =>
  }

  lemma SkipFormat(wt: nat, body: seq<byte>, te: seq<byte>)
    requires Format(wt, body)
    ensures Skip(wt, body + te) == Some(te)
  {
    hide Skip, Format;
    assert (body + te)[..|body|] == body && (body + te)[|body|..] == te;
    SkipExactly(wt, body + te, |body|);
  }

  // -- What pb_encode writes -----------------------------------------------------------------

  lemma PrefixedFormat(b: seq<byte>)
    requires |b| < TWO32
    ensures Format(2, Prefixed(b))
  {
    Varint32RoundTrip(|b|, b);
  }

  /** The wire type of each kind of value. */
  predicate KeyOf(lt: LType, wt: nat) {
    match lt
    case LVarint(_) => wt == 0
    case LUvarint(_) => wt == 0
    case LSvarint(_) => wt == 0
    case LFixed64 => wt == 1
    case LFixed32 => wt == 5
    case LBytes(_) => wt == 2
    case LString(_) => wt == 2
    case LSubmessage(_) => wt == 2
    case LFixedBytes(_) => wt == 2
  }

  lemma ValueFormat(lt: LType, v: Value, e: seq<byte>, wt: nat)
    requires LTypeOk(lt) && FitsValue(lt, v) && EncodeValue(lt, v) == Some(e) && KeyOf(lt, wt)
    ensures Format(wt, e)
  {
    if lt.LSubmessage? {
      PrefixedFormat(EncodeFrom(lt.sub, v.m, 0).value);
    } else if !Packable(lt) {
      PrefixedFormat(v.b);
    }
  }

  /** A record: a key with the wire type of its kind of value, and then what it announces. */
  predicate Record(tag: nat, wt: nat, body: seq<byte>, e: seq<byte>) {
    e == VarintBytes(8 * tag + wt) + body && Format(wt, body)
  }

  lemma OneRecord(tag: nat, lt: LType, v: Value, e: seq<byte>) returns (wt: nat, body: seq<byte>)
    requires LTypeOk(lt) && FitsValue(lt, v) && EncodeOne(tag, lt, v) == Some(e)
    ensures KeyOf(lt, wt) && Record(tag, wt, body, e)
  {
    wt := if lt.LFixed64? then 1 else if lt.LFixed32? then 5 else if Packable(lt) then 0 else 2;
    body := EncodeValue(lt, v).value;
    ValueFormat(lt, v, body, wt);
  }

  // -- Unknown fields are passed over ----------------------------------------------------------

  predicate Unknown(d: Descriptor, tag: nat) {
    forall j :: 0 <= j < |d.fields| ==> d.fields[j].tag != tag
  }

  lemma UnknownTurn(d: Descriptor, m: Message, seen: set<nat>, bs: seq<byte>, tag: nat, wt: nat, rest: seq<byte>,
                    te: seq<byte>)
    requires WellFormed(d) && |m.slots| == d.slots && Find(d, tag) == None && tag != 0 && bs != []
    requires ReadTag(bs) == Tagged(tag, wt, rest) && Skip(wt, rest) == Some(te)
    ensures DecodeLoop(d, m, seen, bs) == DecodeLoop(d, m, seen, te)
  {
    hide Find, ReadTag, Skip, WellFormed;
    LoopTurn(d, m, seen, bs);
  }

  lemma RecordSkipped(d: Descriptor, m: Message, seen: set<nat>, tag: nat, wt: nat, body: seq<byte>,
                      e: seq<byte>, te: seq<byte>)
    requires WellFormed(d) && |m.slots| == d.slots && Unknown(d, tag) && 1 <= tag < 0x2000_0000
    requires Record(tag, wt, body, e)
    ensures DecodeLoop(d, m, seen, e + te) == DecodeLoop(d, m, seen, te)
  {
    hide Skip, Format, VarintBytes, Varint32, WellFormed, DecodeLoop, TagBytes, ReadTag;
    assert Find(d, tag) == None;
    FormatKinds(wt, body);
    TagBack(wt, tag, body + te);
    SkipFormat(wt, body, te);
    KeyApart(tag, wt, body, e, te);
    UnknownTurn(d, m, seen, e + te, tag, wt, body + te, te);
  }

  lemma FormatKinds(wt: nat, body: seq<byte>)
    requires Format(wt, body)
    ensures wt == 0 || wt == 1 || wt == 2 || wt == 5
  {
  }

  lemma KeyApart(tag: nat, wt: nat, body: seq<byte>, e: seq<byte>, te: seq<byte>)
    requires Record(tag, wt, body, e)
    ensures e + te == TagBytes(wt, tag) + (body + te)
  {
    hide Format;
  }

  lemma {:induction false} TaggedSkipped(d: Descriptor, m: Message, seen: set<nat>, tag: nat, lt: LType,
                         vs: seq<Value>, e: seq<byte>, te: seq<byte>)
    requires WellFormed(d) && |m.slots| == d.slots && Unknown(d, tag) && 1 <= tag < 0x2000_0000
    requires LTypeOk(lt) && (forall k :: 0 <= k < |vs| ==> FitsValue(lt, vs[k]))
    requires EncodeTagged(tag, lt, vs) == Some(e)
    ensures DecodeLoop(d, m, seen, e + te) == DecodeLoop(d, m, seen, te)
    decreases |vs|
  {
    if vs == [] {
      assert e + te == te;
    } else {
      var one, rest := TaggedCons(tag, lt, vs, e);
      hide DecodeLoop, EncodeTagged, EncodeOne, Record, LTypeOk, FitsValue;
      var wt, body := OneRecord(tag, lt, vs[0], one);
      RecordSkipped(d, m, seen, tag, wt, body, one, rest + te);
      Assoc(one, rest, te);
      TaggedSkipped(d, m, seen, tag, lt, vs[1..], rest, te);
    }
  }

  /** Whatever pb_encode writes for a field, a reader whose table lacks its tag goes on
      behind it as if it had never been there. */
  lemma FieldSkipped(d: Descriptor, m: Message, seen: set<nat>, f: Field, s: Slot, e: seq<byte>, te: seq<byte>)
    requires WellFormed(d) && |m.slots| == d.slots && Unknown(d, f.tag)
    requires FieldOk(f) && FitsSlot(f, s) && EncodeField(f, s) == Some(e)
    ensures DecodeLoop(d, m, seen, e + te) == DecodeLoop(d, m, seen, te)
  {
    hide DecodeLoop;
    assert LTypeOk(f.ltype);
    if e == [] {
      assert e + te == te;
    } else if s.Many? && Packable(f.ltype) {
      var body := EncodeItems(f.ltype, s.vs).value;
      PrefixedFormat(body);
      assert e == VarintBytes(8 * f.tag + 2) + Prefixed(body);
      RecordSkipped(d, m, seen, f.tag, 2, Prefixed(body), e, te);
    } else if s.Many? {
      TaggedSkipped(d, m, seen, f.tag, f.ltype, s.vs, e, te);
    } else {
      var wt, body := OneRecord(f.tag, f.ltype, s.v, e);
      RecordSkipped(d, m, seen, f.tag, wt, body, e, te);
    }
  }

  /** And so for a whole message: a reader that knows none of its tags reads nothing. */
  lemma {:induction false} MessageSkipped(d: Descriptor, n: Message, seen: set<nat>, g: Descriptor, m: Message, i: nat,
                          e: seq<byte>, te: seq<byte>)
    requires WellFormed(d) && |n.slots| == d.slots && WellFormed(g) && |m.slots| == g.slots && FitsMessage(g, m)
    requires i <= |g.fields| && (forall j :: i <= j < |g.fields| ==> Unknown(d, g.fields[j].tag))
    requires EncodeFrom(g, m, i) == Some(e)
    ensures DecodeLoop(d, n, seen, e + te) == DecodeLoop(d, n, seen, te)
    decreases |g.fields| - i
  {
    if i == |g.fields| {
      assert e + te == te;
    } else {
      var f, s := g.fields[i], m.slots[g.fields[i].slot];
      var fe, re := EncodeField(f, s).value, EncodeFrom(g, m, i + 1).value;
      assert FieldOk(f) && FitsSlot(f, s) && Unknown(d, f.tag);
      hide DecodeLoop, EncodeField;
      Assoc(fe, re, te);
      FieldSkipped(d, n, seen, f, s, fe, re + te);
      MessageSkipped(d, n, seen, g, m, i + 1, re, te);
    }
  }
}
