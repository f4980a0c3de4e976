/** What nanopb writes for a message (pb_encode.c) and what it makes of a byte
    string (pb_decode.c), as functions.  PbEncode.dfy and PbDecode.dfy have the
    streams and loops that compute them.  `None` is the source's `return false`. */
module PbWire {
  import opened Bytes
  import opened Options
  import opened Varint
  import opened PbModel

  // -- Encoding ------------------------------------------------------------------

  function WireType(lt: LType): nat {
    match lt
    case LVarint(_) => 0
    case LUvarint(_) => 0
    case LSvarint(_) => 0
    case LFixed64 => 1
    case LFixed32 => 5
    case _ => 2
  }

  /** pb_encode_tag. */
  function TagBytes(wt: nat, tag: nat): seq<byte> {
    VarintBytes(8 * tag + wt)
  }

  /** pb_encode_string: a length prefix and the bytes. */
  function Prefixed(b: seq<byte>): seq<byte> {
    VarintBytes(|b|) + b
  }

  function AsUint64(i: int): nat
    requires -TWO63 <= i < TWO64
  {
    if i < 0 then TWO64 + i else i
  }

  /** The field encoders pb_enc_*. `None` for "bytes size exceeded", and for
      a value the C type of the field cannot hold. */
  function EncodeValue(lt: LType, v: Value): Option<seq<byte>>
    decreases lt, 0
  {
    match lt
    case LVarint(size) =>
      if IntSize(size) && v.IntV? && InSigned(v.i, size) then Some(VarintBytes(AsUint64(v.i))) else None
    case LUvarint(size) =>
      if IntSize(size) && v.IntV? && InUnsigned(v.i, size) then Some(VarintBytes(v.i)) else None
    case LSvarint(size) =>
      if IntSize(size) && v.IntV? && InSigned(v.i, size) then Some(VarintBytes(ZigZag(v.i))) else None
    case LFixed32 => if v.IntV? && 0 <= v.i < TWO32 then Some(FixedBytes(v.i, 4)) else None
    case LFixed64 => if v.IntV? && 0 <= v.i < TWO64 then Some(FixedBytes(v.i, 8)) else None
    case LBytes(cap) => if v.BytesV? && |v.b| <= cap then Some(Prefixed(v.b)) else None
    case LString(size) => if v.BytesV? && |v.b| <= size && NoZero(v.b) then Some(Prefixed(v.b)) else None
    case LFixedBytes(size) => if v.BytesV? && |v.b| == size then Some(Prefixed(v.b)) else None
    case LSubmessage(sub) =>
      if !v.MsgV? then None
      else match EncodeFrom(sub, v.m, 0) case None => None case Some(e) => Some(Prefixed(e))
  }

  function Append(a: Option<seq<byte>>, b: Option<seq<byte>>): Option<seq<byte>> {
    if a.Some? && b.Some? then Some(a.value + b.value) else None
  }

  /** The items of a packed array, back to back. */
  function EncodeItems(lt: LType, vs: seq<Value>): Option<seq<byte>>
    decreases lt, 1, |vs|
  {
    if vs == [] then Some([]) else Append(EncodeValue(lt, vs[0]), EncodeItems(lt, vs[1..]))
  }

  /** A tag and a value for each item. */
  function EncodeTagged(tag: nat, lt: LType, vs: seq<Value>): Option<seq<byte>>
    decreases lt, 1, |vs|
  {
    if vs == [] then Some([])
    else Append(EncodeOne(tag, lt, vs[0]), EncodeTagged(tag, lt, vs[1..]))
  }

  function EncodeOne(tag: nat, lt: LType, v: Value): Option<seq<byte>>
    decreases lt, 1, 0
  {
    Append(Some(TagBytes(WireType(lt), tag)), EncodeValue(lt, v))
  }

  /** encode_array: packed whenever the type allows it. */
  function EncodeArray(tag: nat, lt: LType, maxCount: nat, vs: seq<Value>): Option<seq<byte>>
    decreases lt, 2
  {
    if vs == [] then Some([])
    else if |vs| > maxCount then None
    else if Packable(lt) then
      match EncodeItems(lt, vs)
      case None => None
      case Some(body) => Some(TagBytes(2, tag) + Prefixed(body))
    else EncodeTagged(tag, lt, vs)
  }

  /** encode_basic_field. */
  function EncodeField(f: Field, s: Slot): Option<seq<byte>>
    decreases f
  {
    match f.htype
    case Required => if s.Plain? then EncodeOne(f.tag, f.ltype, s.v) else None
    case Optional =>
      if !s.Maybe? then None else if s.has then EncodeOne(f.tag, f.ltype, s.v) else Some([])
    case Repeated(maxCount) => if s.Many? then EncodeArray(f.tag, f.ltype, maxCount, s.vs) else None
    case Oneof =>
      if !s.Union? then None else if s.which == f.tag then EncodeOne(f.tag, f.ltype, s.v) else Some([])
  }

  /** pb_encode from field `i` on. */
  function EncodeFrom(d: Descriptor, m: Message, i: nat): Option<seq<byte>>
    decreases d, |d.fields| - i
  {
    if i >= |d.fields| then Some([])
    else if d.fields[i].slot >= |m.slots| then None
    else Append(EncodeField(d.fields[i], m.slots[d.fields[i].slot]), EncodeFrom(d, m, i + 1))
  }

  function Encode(d: Descriptor, m: Message): Option<seq<byte>> {
    EncodeFrom(d, m, 0)
  }

  // -- Reading tags, lengths and raw values ---------------------------------------

  datatype TagRead = TagFailed | TagStop(rest: seq<byte>) | Tagged(tag: nat, wt: nat, rest: seq<byte>)

  /** pb_decode_tag on a non-empty stream: a zero tag ends the message. */
  function ReadTag(bs: seq<byte>): (r: TagRead)
    ensures !r.TagFailed? ==> |r.rest| < |bs|
    ensures r.Tagged? ==> r.wt < 8
  {
    match Varint32(bs)
    case None => TagFailed
    case Some(p) => if p.val == 0 then TagStop(p.rest) else Tagged(p.val / 8, p.val % 8, p.rest)
  }

  /** pb_read. */
  function Take(n: nat, bs: seq<byte>): (r: Option<Parsed<seq<byte>>>)
    ensures r.Some? ==> |r.value.rest| == |bs| - n && |r.value.val| == n
  {
    if |bs| < n then None else Some(Parsed(bs[..n], bs[n..]))
  }

  /** pb_make_string_substream: a length prefix and that many bytes. */
  function Substream(bs: seq<byte>): (r: Option<Parsed<seq<byte>>>)
    ensures r.Some? ==> |r.value.rest| < |bs| && |r.value.val| < |bs|
  {
    match Varint32(bs)
    case None => None
    case Some(p) => Take(p.val, p.rest)
  }

  function SkipVarint(bs: seq<byte>): (r: Option<seq<byte>>)
    ensures r.Some? ==> |r.value| <= |bs|
  {
    if bs == [] then None else if bs[0] >= 128 then SkipVarint(bs[1..]) else Some(bs[1..])
  }

  /** pb_skip_field. */
  function Skip(wt: nat, bs: seq<byte>): (r: Option<seq<byte>>)
    ensures r.Some? ==> |r.value| <= |bs|
  {
    match wt
    case 0 => SkipVarint(bs)
    case 1 => (match Take(8, bs) case None => None case Some(p) => Some(p.rest))
    case 2 => (match Substream(bs) case None => None case Some(p) => Some(p.rest))
    case 5 => (match Take(4, bs) case None => None case Some(p) => Some(p.rest))
    case _ => None
  }

  /** A C string ends at its first NUL. */
  function UpToNul(b: seq<byte>): (r: seq<byte>)
    ensures |r| <= |b| && NoZero(r)
  {
    if b == [] || b[0] == 0 then [] else [b[0]] + UpToNul(b[1..])
  }

  function Zeros(n: nat): (r: seq<byte>)
    ensures |r| == n
  {
    seq(n, _ => 0)
  }

  // -- Decoding --------------------------------------------------------------------

  /** `(int32_t)value`. */
  function AsInt32(u: nat): int {
    if u % TWO32 < TWO31 then u % TWO32 else u % TWO32 - TWO32
  }

  /** The signed value pb_dec_varint checks against the field's width. */
  function SignedOf(u: nat, size: nat): int
    requires u < TWO64
  {
    if size == 8 then AsInt64(u) else AsInt32(u)
  }

  /** pb_dec_varint, pb_dec_uvarint, pb_dec_svarint, pb_dec_fixed32/64. */
  function DecodeInt(lt: LType, bs: seq<byte>): (r: Option<Parsed<Value>>)
    requires Packable(lt) && LTypeOk(lt)
    ensures r.Some? ==> |r.value.rest| < |bs| && ScalarOk(lt, r.value.val)
  {
    match lt
    case LVarint(size) =>
      (match Varint64(bs)
       case None => None
       case Some(p) =>
         if InSigned(SignedOf(p.val, size), size) then Some(Parsed(IntV(SignedOf(p.val, size)), p.rest)) else None)
    case LUvarint(size) =>
      (match Varint64(bs)
       case None => None
       case Some(p) => if InUnsigned(p.val, size) then Some(Parsed(IntV(p.val), p.rest)) else None)
    case LSvarint(size) =>
      (match Varint64(bs)
       case None => None
       case Some(p) =>
         if InSigned(UnZigZag(p.val), size) then Some(Parsed(IntV(UnZigZag(p.val)), p.rest)) else None)
    case LFixed32 => DecodeFixed(4, bs)
    case LFixed64 => DecodeFixed(8, bs)
  }

  function DecodeFixed(n: nat, bs: seq<byte>): (r: Option<Parsed<Value>>)
    requires n == 4 || n == 8
    ensures r.Some? ==> |r.value.rest| < |bs| && r.value.val.IntV?
    ensures r.Some? ==> 0 <= r.value.val.i < if n == 4 then TWO32 else TWO64
  {
    match Take(n, bs)
    case None => None
    case Some(p) =>
      FixedValueBound(p.val);
      Pow256Values();
      Some(Parsed(IntV(FixedValue(p.val)), p.rest))
  }

  /** pb_dec_bytes, pb_dec_string, pb_dec_fixed_length_bytes: the length is
      checked against the storage before anything is read. */
  function DecodeBytes(lt: LType, bs: seq<byte>): (r: Option<Parsed<Value>>)
    requires lt.LBytes? || lt.LString? || lt.LFixedBytes?
    ensures r.Some? ==> |r.value.rest| < |bs| && ScalarOk(lt, r.value.val)
  {
    match Varint32(bs)
    case None => None
    case Some(len) =>
      match lt
      case LBytes(cap) =>
        if len.val > cap then None
        else (match Take(len.val, len.rest)
              case None => None
              case Some(p) => Some(Parsed(BytesV(p.val), p.rest)))
      case LString(size) =>
        if len.val + 1 > size then None
        else (match Take(len.val, len.rest)
              case None => None
              case Some(p) => Some(Parsed(BytesV(UpToNul(p.val)), p.rest)))
      case LFixedBytes(size) =>
        if len.val == 0 then Some(Parsed(BytesV(Zeros(size)), len.rest))
        else if len.val != size then None
        else (match Take(len.val, len.rest)
              case None => None
              case Some(p) => Some(Parsed(BytesV(p.val), p.rest)))
  }

  /** The message a submessage field is decoded onto. */
  function Onto(sub: Descriptor, prev: Value): (m: Message)
    requires WellFormed(sub)
    ensures |m.slots| == sub.slots
  {
    if prev.MsgV? && |prev.m.slots| == sub.slots then prev.m else Defaults(sub)
  }

  /** PB_DECODERS: `prev` is what the storage holds. */
  function DecodeValue(lt: LType, prev: Value, bs: seq<byte>): (r: Option<Parsed<Value>>)
    requires LTypeOk(lt)
    ensures r.Some? ==> |r.value.rest| < |bs|
    decreases |bs|, 0
  {
    if Packable(lt) then DecodeInt(lt, bs)
    else if !lt.LSubmessage? then DecodeBytes(lt, bs)
    else
      match Substream(bs)
      case None => None
      case Some(p) =>
        match DecodeNoinit(lt.sub, Onto(lt.sub, prev), p.val)
        case None => None
        case Some(l) => Some(Parsed(MsgV(l.m), p.rest))
  }

  /** The packed branch of decode_static_field, on the substream. */
  function DecodePacked(lt: LType, maxCount: nat, vs: seq<Value>, body: seq<byte>): Option<seq<Value>>
    requires Packable(lt) && LTypeOk(lt)
    decreases |body|
  {
    if body == [] then Some(vs)
    else if |vs| >= maxCount then None
    else
      match DecodeInt(lt, body)
      case None => None
      case Some(p) => DecodePacked(lt, maxCount, vs + [p.val], p.rest)
  }

  function Items(s: Slot): seq<Value> {
    if s.Many? then s.vs else []
  }

  function Held(s: Slot): Value {
    match s
    case Plain(v) => v
    case Maybe(_, v) => v
    case Union(_, v) => v
    case Many(_) => IntV(0)
  }

  /** What a submessage of this field starts from: a fresh default message in
      an array or a oneof, the current content otherwise. */
  function StartValue(f: Field, s: Slot): Value
    requires FieldOk(f)
  {
    if f.htype.Repeated? || f.htype.Oneof? then InitValue(f) else Held(s)
  }

  /** decode_static_field.  Only a packed array looks at the wire type. */
  function DecodeField(f: Field, s: Slot, wt: nat, bs: seq<byte>): (r: Option<Parsed<Slot>>)
    requires FieldOk(f)
    ensures r.Some? ==> |r.value.rest| < |bs|
    decreases |bs|, 1
  {
    assert LTypeOk(f.ltype);
    if f.htype.Repeated? && wt == 2 && Packable(f.ltype) then
      match Substream(bs)
      case None => None
      case Some(p) =>
        match DecodePacked(f.ltype, f.htype.maxCount, Items(s), p.val)
        case None => None
        case Some(vs) => Some(Parsed(Many(vs), p.rest))
    else if f.htype.Repeated? && |Items(s)| >= f.htype.maxCount then None
    else
      match DecodeValue(f.ltype, StartValue(f, s), bs)
      case None => None
      case Some(p) =>
        match f.htype
        case Required => Some(Parsed(Plain(p.val), p.rest))
        case Optional => Some(Parsed(Maybe(true, p.val), p.rest))
        case Repeated(_) => Some(Parsed(Many(Items(s) + [p.val]), p.rest))
        case Oneof => Some(Parsed(Union(f.tag, p.val), p.rest))
  }

  /** The field with this tag, if any. */
  function FindFrom(d: Descriptor, tag: nat, i: nat): (r: Option<nat>)
    ensures r.Some? ==> i <= r.value < |d.fields| && d.fields[r.value].tag == tag
    ensures r.None? ==> forall j :: i <= j < |d.fields| ==> d.fields[j].tag != tag
    decreases |d.fields| - i
  {
    if i >= |d.fields| then None
    else if d.fields[i].tag == tag then Some(i)
    else FindFrom(d, tag, i + 1)
  }

  function Find(d: Descriptor, tag: nat): (r: Option<nat>)
    ensures r.Some? ==> r.value < |d.fields| && d.fields[r.value].tag == tag
    ensures r.None? ==> forall j :: 0 <= j < |d.fields| ==> d.fields[j].tag != tag
  {
    FindFrom(d, tag, 0)
  }

  /** PB_MAX_REQUIRED_FIELDS. */
  const MAX_REQUIRED := 64

  /** required_field_index of field `i`: the required fields before it. */
  function RequiredBefore(d: Descriptor, i: nat): nat
    requires i <= |d.fields|
  {
    if i == 0 then 0
    else RequiredBefore(d, i - 1) + if d.fields[i - 1].htype.Required? then 1 else 0
  }

  /** fields_seen after field `i` arrived. */
  function MarkSeen(d: Descriptor, i: nat, seen: set<nat>): set<nat>
    requires i < |d.fields|
  {
    if d.fields[i].htype.Required? && RequiredBefore(d, i) < MAX_REQUIRED
    then seen + {RequiredBefore(d, i)} else seen
  }

  /** The final check: the first 64 required fields have all been seen. */
  predicate AllSeen(d: Descriptor, seen: set<nat>) {
    forall k :: 0 <= k < MAX_REQUIRED && k < RequiredBefore(d, |d.fields|) ==> k in seen
  }

  /** The state of pb_decode_noinit: the message, fields_seen, the unread bytes,
      and whether a zero tag ended the message. */
  datatype Loop = Loop(m: Message, seen: set<nat>, rest: seq<byte>, stopped: bool)

  /** The decoding loop of pb_decode_noinit.  An empty table is one terminator
      row with tag 0, which a tag of 0 matches; decoding onto it fails. */
  function DecodeLoop(d: Descriptor, m: Message, seen: set<nat>, bs: seq<byte>): (r: Option<Loop>)
    requires WellFormed(d) && |m.slots| == d.slots
    ensures r.Some? ==> |r.value.m.slots| == d.slots && |r.value.rest| <= |bs|
    ensures r.Some? && !r.value.stopped ==> r.value.rest == []
    decreases |bs|, 2
  {
    if bs == [] then Some(Loop(m, seen, [], false))
    else
      match ReadTag(bs)
      case TagFailed => None
      case TagStop(rest) => Some(Loop(m, seen, rest, true))
      case Tagged(tag, wt, rest) =>
        match Find(d, tag)
        case None =>
          if d.fields == [] && tag == 0 then None
          else (match Skip(wt, rest)
                case None => None
                case Some(rest') => DecodeLoop(d, m, seen, rest'))
        case Some(i) =>
          match DecodeField(d.fields[i], m.slots[d.fields[i].slot], wt, rest)
          case None => None
          case Some(p) =>
            DecodeLoop(d, Message(m.slots[d.fields[i].slot := p.val]), MarkSeen(d, i, seen), p.rest)
  }

  /** pb_decode_noinit. */
  function DecodeNoinit(d: Descriptor, m: Message, bs: seq<byte>): (r: Option<Loop>)
    requires WellFormed(d) && |m.slots| == d.slots
    ensures r.Some? ==> |r.value.m.slots| == d.slots && |r.value.rest| <= |bs|
    ensures r.Some? && !r.value.stopped ==> r.value.rest == []
    decreases |bs|, 3
  {
    match DecodeLoop(d, m, {}, bs)
    case None => None
    case Some(l) => if AllSeen(d, l.seen) then Some(l) else None
  }

  /** pb_decode. */
  function Decode(d: Descriptor, bs: seq<byte>): Option<Loop>
    requires WellFormed(d)
  {
    DecodeNoinit(d, Defaults(d), bs)
  }

  /** pb_encode_delimited and pb_decode_delimited. */
  function EncodeDelimited(d: Descriptor, m: Message): Option<seq<byte>> {
    match Encode(d, m) case None => None case Some(e) => Some(Prefixed(e))
  }

  function DecodeDelimited(d: Descriptor, bs: seq<byte>): (r: Option<Parsed<Message>>)
    requires WellFormed(d)
    ensures r.Some? ==> |r.value.rest| < |bs|
  {
    match Substream(bs)
    case None => None
    case Some(p) => match Decode(d, p.val) case None => None case Some(l) => Some(Parsed(l.m, p.rest))
  }
}
