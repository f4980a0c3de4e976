/** What the decoding loop makes of the storage of a field: kept while nothing arrives for it,
    merged when a submessage comes in parts, written anew otherwise. */
module PbFields {
  import opened Bytes
  import opened Options
  import opened Varint
  import opened PbFormat
  import opened PbLaws
  import opened PbModel
  import opened PbRequired
  import opened PbRoundTrip
  import opened PbWire

  // -- Where the loop fails ----------------------------------------------------------------------

  lemma KeyRefused(d: Descriptor, m: Message, seen: set<nat>, bs: seq<byte>)
    requires WellFormed(d) && |m.slots| == d.slots && bs != [] && Varint32(bs) == None
    ensures DecodeLoop(d, m, seen, bs) == None
  {
    hide Varint32, Find;
    LoopTurn(d, m, seen, bs);
  }

  /** An unknown field that is cut short, or of a wire type there is no format for. */
  lemma UnknownRefused(d: Descriptor, m: Message, seen: set<nat>, tag: nat, wt: nat, rest: seq<byte>)
    requires WellFormed(d) && |m.slots| == d.slots && Unknown(d, tag) && 1 <= tag < 0x2000_0000 && wt < 8
    requires forall n :: 0 <= n <= |rest| ==> !Format(wt, rest[..n])
    ensures DecodeLoop(d, m, seen, VarintBytes(8 * tag + wt) + rest) == None
  {
    var bs := TagBytes(wt, tag) + rest;
    hide Skip, Format, VarintBytes, Varint32, WellFormed, DecodeLoop;
    assert Find(d, tag) == None;
    TagBack(wt, tag, rest);
    if Skip(wt, rest).Some? {
      var n := |rest| - |Skip(wt, rest).value|;
      SkipSuffix(wt, rest);
      SkipExactly(wt, rest, n);
    }
    LoopTurn(d, m, seen, bs);
  }

  /** What is left is the end of what there was. */
  lemma SkipSuffix(wt: nat, bs: seq<byte>)
    requires Skip(wt, bs).Some?
    ensures Skip(wt, bs).value == bs[|bs| - |Skip(wt, bs).value|..]
  {
    match wt
    case 0 =>
      var p := SkippedVarint(bs);
    case 2 =>
      var p := Varint32Consumes(0, 0, bs);
    case _ =>
  }

  // -- Fields that do not arrive -----------------------------------------------------------------

  /** No field with storage `k` is among the tags. */
  predicate Absent(d: Descriptor, k: nat, tags: seq<nat>) {
    forall i :: 0 <= i < |d.fields| && d.fields[i].slot == k ==> d.fields[i].tag !in tags
  }

  lemma {:induction false} SlotKept(d: Descriptor, m: Message, seen: set<nat>, bs: seq<byte>, k: nat)
    requires WellFormed(d) && |m.slots| == d.slots && k < d.slots
    requires TagsOf(d, m, bs).Some? && Absent(d, k, TagsOf(d, m, bs).value)
    ensures DecodeLoop(d, m, seen, bs).Some? && DecodeLoop(d, m, seen, bs).value.m.slots[k] == m.slots[k]
    decreases |bs|
  {
    hide Skip, DecodeField, MarkSeen;
    if bs != [] && ReadTag(bs).Tagged? {
      var t := ReadTag(bs);
      match Find(d, t.tag)
      case None =>
        AbsentRest(d, k, t.tag, TagsOf(d, m, Skip(t.wt, t.rest).value).value);
        SlotKept(d, m, seen, Skip(t.wt, t.rest).value, k);
      case Some(i) =>
        assert FieldOk(d.fields[i]);
        var p := DecodeField(d.fields[i], m.slots[d.fields[i].slot], t.wt, t.rest).value;
        AbsentRest(d, k, t.tag, TagsOf(d, With(d, m, i, p.val), p.rest).value);
        SlotKept(d, With(d, m, i, p.val), MarkSeen(d, i, seen), p.rest, k);
    }
  }

  lemma AbsentRest(d: Descriptor, k: nat, tag: nat, ts: seq<nat>)
    requires Absent(d, k, [tag] + ts)
    ensures Absent(d, k, ts)
  {
    forall i | 0 <= i < |d.fields| && d.fields[i].slot == k ensures d.fields[i].tag !in ts {
      assert d.fields[i].tag !in [tag] + ts;
    }
  }

  /** A field that does not arrive ends up at its default: the value of its row, marked as
      absent if it is optional; an empty array; a union in which nothing is chosen. */
  lemma AbsentDefault(d: Descriptor, bs: seq<byte>, i: nat)
    requires WellFormed(d) && i < |d.fields| && Decode(d, bs).Some? && !d.fields[i].ltype.LSubmessage?
    requires TagsOf(d, Defaults(d), bs).Some? && Absent(d, d.fields[i].slot, TagsOf(d, Defaults(d), bs).value)
    ensures var f, s := d.fields[i], Decode(d, bs).value.m.slots[d.fields[i].slot];
            match f.htype
            case Required => s == Plain(f.init)
            case Optional => s == Maybe(false, f.init)
            case Repeated(_) => s == Many([])
            case Oneof => s.Union? && s.which == 0
  {
    hide DecodeLoop, TagsOf, Absent;
    DefaultsSlots(d);
    var f := d.fields[i];
    assert FieldOk(f) && InitValue(f) == f.init;
    assert Defaults(d).slots[f.slot] == DefaultSlot(f);
    SlotKept(d, Defaults(d), {}, bs, f.slot);
    assert Decode(d, bs) == DecodeLoop(d, Defaults(d), {}, bs);
  }

  // -- Fields that arrive more than once -----------------------------------------------------------

  /** The record of a submessage. */
  function Part(tag: nat, body: seq<byte>): seq<byte> {
    VarintBytes(8 * tag + 2) + Prefixed(body)
  }

  /** What a required or optional submessage holds. */
  predicate Content(f: Field, s: Slot, m: Message) {
    || (f.htype.Required? && s == Plain(MsgV(m)))
    || (f.htype.Optional? && s.Maybe? && s.v == MsgV(m))
  }

  function Put(f: Field, m: Message): Slot {
    if f.htype.Required? then Plain(MsgV(m)) else Maybe(true, MsgV(m))
  }

  lemma PartRead(d: Descriptor, cur: Message, seen: set<nat>, i: nat, m: Message, body: seq<byte>, te: seq<byte>)
    requires WellFormed(d) && |cur.slots| == d.slots && i < |d.fields| && d.fields[i].ltype.LSubmessage?
    requires Content(d.fields[i], cur.slots[d.fields[i].slot], m) && |body| < TWO32
    requires WellFormed(d.fields[i].ltype.sub) && |m.slots| == d.fields[i].ltype.sub.slots
    requires DecodeNoinit(d.fields[i].ltype.sub, m, body).Some?
    ensures DecodeLoop(d, cur, seen, Part(d.fields[i].tag, body) + te)
         == DecodeLoop(d, With(d, cur, i, Put(d.fields[i], DecodeNoinit(d.fields[i].ltype.sub, m, body).value.m)),
                       MarkSeen(d, i, seen), te)
  {
    var f := d.fields[i];
    assert FieldOk(f) && LTypeOk(f.ltype);
    SubstreamBack(body, te);
    hide DecodeLoop, DecodeNoinit;
    StepRoundTrip(d, cur, seen, i, 2, Put(f, DecodeNoinit(f.ltype.sub, m, body).value.m), Prefixed(body), te);
  }

  /** A submessage that comes in two records is read as if their bytes had come in one. */
  lemma PartsMerge(d: Descriptor, cur: Message, seen: set<nat>, i: nat, m: Message, a: seq<byte>, b: seq<byte>,
                   te: seq<byte>)
    requires WellFormed(d) && |cur.slots| == d.slots && i < |d.fields| && d.fields[i].ltype.LSubmessage?
    requires Content(d.fields[i], cur.slots[d.fields[i].slot], m) && |a + b| < TWO32
    requires WellFormed(d.fields[i].ltype.sub) && |m.slots| == d.fields[i].ltype.sub.slots
    requires DecodeNoinit(d.fields[i].ltype.sub, m, a).Some? && !DecodeNoinit(d.fields[i].ltype.sub, m, a).value.stopped
    requires DecodeNoinit(d.fields[i].ltype.sub, DecodeNoinit(d.fields[i].ltype.sub, m, a).value.m, b).Some?
    ensures DecodeLoop(d, cur, seen, Part(d.fields[i].tag, a) + Part(d.fields[i].tag, b) + te)
         == DecodeLoop(d, cur, seen, Part(d.fields[i].tag, a + b) + te)
  {
    var f := d.fields[i];
    hide DecodeLoop, DecodeNoinit, Part, WellFormed;
    var first := DecodeNoinit(f.ltype.sub, m, a).value.m;
    var last := DecodeNoinit(f.ltype.sub, first, b).value.m;
    var half := With(d, cur, i, Put(f, first));
    Assoc(Part(f.tag, a), Part(f.tag, b), te);
    PartRead(d, cur, seen, i, m, a, Part(f.tag, b) + te);
    WithTwice(d, cur, i, Put(f, first), Put(f, last));
    PartRead(d, half, MarkSeen(d, i, seen), i, first, b, te);
    DecodeAppend(f.ltype.sub, m, a, b);
    PartRead(d, cur, seen, i, m, a + b, te);
  }

  /** Anything but an array or a submessage is written anew, and so is a union, whatever it
      held: the last record counts. */
  lemma LastCounts(f: Field, s: Slot, t: Slot, wt: nat, bs: seq<byte>)
    requires FieldOk(f) && !f.htype.Repeated? && (f.htype.Oneof? || !f.ltype.LSubmessage?)
    ensures DecodeField(f, s, wt, bs) == DecodeField(f, t, wt, bs)
    ensures f.htype.Oneof? && DecodeField(f, s, wt, bs).Some? ==>
              DecodeField(f, s, wt, bs).value.val.Union? && DecodeField(f, s, wt, bs).value.val.which == f.tag
  {
    assert LTypeOk(f.ltype);
  }

  /** A submessage in an array or a union starts from its defaults. */
  lemma StartsAfresh(f: Field, s: Slot, body: seq<byte>, te: seq<byte>)
    requires FieldOk(f) && f.ltype.LSubmessage? && |body| < TWO32 && WellFormed(f.ltype.sub)
    requires f.htype.Oneof? || (f.htype.Repeated? && s.Many? && |s.vs| < f.htype.maxCount)
    ensures var r := DecodeField(f, s, 2, Prefixed(body) + te);
            match Decode(f.ltype.sub, body)
            case None => r == None
            case Some(l) =>
              r == Some(Parsed(if f.htype.Oneof? then Union(f.tag, MsgV(l.m)) else Many(s.vs + [MsgV(l.m)]), te))
  {
    assert LTypeOk(f.ltype);
    SubstreamBack(body, te);
  }
}
