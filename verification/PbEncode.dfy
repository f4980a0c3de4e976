/** The output streams and encoders of pb_encode.c, computing what PbWire says
    an encoding is.  A stream without a buffer only counts (PB_OSTREAM_SIZING). */
module PbEncode {
  import opened Bytes
  import opened Options
  import opened Varint
  import opened PbModel
  import opened PbWire
  import opened PbRoundTrip
  import opened PbIterator

  // -- Messages as C structs ---------------------------------------------------------

  /** `v` is a value of the C type of the field.  Byte arrays carry their own
      size and arrays their own count, which the encoder still has to check. */
  predicate TypedValue(lt: LType, v: Value)
    requires LTypeOk(lt)
    decreases lt, 0
  {
    match lt
    case LSubmessage(sub) => v.MsgV? && TypedMessage(sub, v.m)
    case LBytes(_) => v.BytesV?
    case LString(size) => v.BytesV? && |v.b| <= size && NoZero(v.b)
    case _ => ScalarOk(lt, v)
  }

  predicate AllTyped(lt: LType, vs: seq<Value>)
    requires LTypeOk(lt)
    decreases lt, 1
  {
    forall k :: 0 <= k < |vs| ==> TypedValue(lt, vs[k])
  }

  predicate TypedSlot(f: Field, s: Slot)
    requires FieldOk(f)
    decreases f
  {
    match f.htype
    case Required => s.Plain? && TypedValue(f.ltype, s.v)
    case Optional => s.Maybe? && (s.has ==> TypedValue(f.ltype, s.v))
    case Repeated(_) => s.Many? && AllTyped(f.ltype, s.vs)
    case Oneof => s.Union? && (s.which == f.tag ==> TypedValue(f.ltype, s.v))
  }

  predicate TypedMessage(d: Descriptor, m: Message)
    requires WellFormed(d)
    decreases d
  {
    && |m.slots| == d.slots
    && forall i :: 0 <= i < |d.fields| ==> TypedSlot(d.fields[i], m.slots[d.fields[i].slot])
  }

  /** The loop of pb_encode_varint over its local buffer, which for a uint64
      never exceeds its ten bytes (VarintBytesLength). */
  method VarintBuffer(v: nat) returns (buffer: seq<byte>)
    requires v > 0x7F
    ensures buffer == VarintBytes(v)
  {
    buffer := [];
    var value := v;
    assert [] + MarkedGroups(v) == MarkedGroups(v);
    while value != 0
      invariant MarkedGroups(v) == buffer + MarkedGroups(value)
    {
      Assoc(buffer, [value % 128 + 128], MarkedGroups(value / 128));
      buffer := buffer + [value % 128 + 128];
      value := value / 128;
    }
    assert buffer + [] == buffer;
    UnmarkLast(v);
    buffer := buffer[..|buffer| - 1] + [buffer[|buffer| - 1] - 128];
  }

  /** The groups of `v`, each with its top bit set. */
  function MarkedGroups(v: nat): seq<byte> {
    if v == 0 then [] else [v % 128 + 128] + MarkedGroups(v / 128)
  }

  lemma {:induction false} UnmarkLast(v: nat)
    requires v > 0
    ensures var g := MarkedGroups(v);
            g != [] && g[|g| - 1] >= 128 && VarintBytes(v) == g[..|g| - 1] + [g[|g| - 1] - 128]
  {
    var g := MarkedGroups(v);
    if v < 128 {
      assert MarkedGroups(v / 128) == [];
      assert g == [v + 128] && g[..0] == [];
    } else {
      var t := MarkedGroups(v / 128);
      UnmarkLast(v / 128);
      assert g == [v % 128 + 128] + t;
      assert g[..|g| - 1] == [v % 128 + 128] + t[..|t| - 1];
    }
  }

  // -- Streams -------------------------------------------------------------------------

  class OStream {
    const buf: array?<byte>
    const maxSize: nat
    var state: nat
    var bytesWritten: nat
    /** Where this stream started in the buffer, and what it has written. */
    ghost const base: nat
    ghost var Written: seq<byte>

    ghost function Frame(): set<object> {
      {this} + if buf == null then {} else {buf}
    }

    ghost predicate Valid()
      reads Frame()
    {
      && bytesWritten == |Written|
      && (buf != null ==>
            && state == base + bytesWritten && bytesWritten <= maxSize && base + maxSize <= buf.Length
            && buf[base..state] == Written)
    }

    /** Nothing outside the stream's own window of the buffer changed. */
    twostate predicate Kept()
      reads Frame()
    {
      buf != null ==>
        && base + maxSize <= buf.Length
        && buf[..base] == old(buf[..base]) && buf[base + maxSize..] == old(buf[base + maxSize..])
    }

    /** Success means that there was something to write, that it fits, and that
        it is what was written. */
    twostate predicate Wrote(ok: bool, new e: Option<seq<byte>>)
      reads this
    {
      && old(Written) <= Written
      && (ok <==> e.Some? && (buf == null || |old(Written)| + |e.value| <= maxSize))
      && (ok ==> Written == old(Written) + e.value)
    }

    /** PB_OSTREAM_SIZING. */
    constructor Sizing()
      ensures Valid() && buf == null && Written == []
    {
      buf, maxSize, state, bytesWritten := null, 0, 0, 0;
      base, Written := 0, [];
    }

    /** pb_ostream_from_buffer, and the substream of pb_encode_submessage. */
    constructor OnBuffer(a: array<byte>, start: nat, size: nat)
      requires start + size <= a.Length
      ensures Valid() && buf == a && maxSize == size && base == start && Written == []
    {
      buf, maxSize, state, bytesWritten := a, size, start, 0;
      base, Written := start, [];
    }

    /** pb_write with data. */
    method Write(data: seq<byte>) returns (ok: bool)
      requires Valid()
      modifies Frame()
      ensures Valid() && Kept() && Wrote(ok, Some(data))
    {
      if buf != null {
        if bytesWritten + |data| > maxSize {
          return false;
        }
        var i := 0;
        while i < |data|
          invariant 0 <= i <= |data|
          invariant state == old(state) && bytesWritten == old(bytesWritten) && Written == old(Written)
          invariant buf[..state] == old(buf[..state])
          invariant buf[state..state + i] == data[..i]
          invariant buf[base + maxSize..] == old(buf[base + maxSize..])
        {
          buf[state + i] := data[i];
          i := i + 1;
        }
        assert buf[..base] == buf[..state][..base];
        assert buf[base..state] == buf[..state][base..];
        assert buf[base..state + |data|] == buf[base..state] + buf[state..state + |data|];
        state := state + |data|;
      }
      bytesWritten := bytesWritten + |data|;
      Written := Written + data;
      return true;
    }

    /** pb_write with no data, on a sizing stream. */
    method WriteNull(count: nat, ghost data: seq<byte>)
      requires Valid() && buf == null && |data| == count
      modifies this
      ensures Valid() && Wrote(true, Some(data))
    {
      bytesWritten := bytesWritten + count;
      Written := Written + data;
    }

    /** pb_encode_varint. */
    method EncodeVarint(v: nat) returns (ok: bool)
      requires Valid()
      modifies Frame()
      ensures Valid() && Kept() && Wrote(ok, Some(VarintBytes(v)))
    {
      if v <= 0x7F {
        ok := Write([v]);
        return;
      }
      var buffer := VarintBuffer(v);
      ok := Write(buffer);
    }

    /** pb_encode_tag. */
    method EncodeTag(wt: nat, tag: nat) returns (ok: bool)
      requires Valid()
      modifies Frame()
      ensures Valid() && Kept() && Wrote(ok, Some(TagBytes(wt, tag)))
    {
      ok := EncodeVarint(8 * tag + wt);
    }

    /** pb_encode_string. */
    method EncodeString(b: seq<byte>) returns (ok: bool)
      requires Valid()
      modifies Frame()
      ensures Valid() && Kept() && Wrote(ok, Some(Prefixed(b)))
    {
      ok := EncodeVarint(|b|);
      if ok {
        ok := Write(b);
      }
    }
  }

  lemma EmptyAppend(e: Option<seq<byte>>)
    ensures Append(Some([]), e) == e
  {
    assert e.Some? ==> [] + e.value == e.value;
  }

  lemma AppendStep(done: seq<byte>, e: Option<seq<byte>>, rest: Option<seq<byte>>)
    ensures Append(Some(done), Append(e, rest))
         == if e.Some? then Append(Some(done + e.value), rest) else None
  {
    if e.Some? && rest.Some? {
      Assoc(done, e.value, rest.value);
    }
  }

  // -- Encoders -------------------------------------------------------------------------

  /** PB_ENCODERS. */
  method EncValue(s: OStream, lt: LType, v: Value) returns (ok: bool)
    requires s.Valid() && LTypeOk(lt) && TypedValue(lt, v)
    modifies s.Frame()
    ensures s.Valid() && s.Kept() && s.Wrote(ok, EncodeValue(lt, v))
    decreases lt, 0
  {
    match lt {
      case LVarint(_) => ok := s.EncodeVarint(AsUint64(v.i));
      case LUvarint(_) => ok := s.EncodeVarint(v.i);
      case LSvarint(_) => ok := s.EncodeVarint(ZigZag(v.i));
      case LFixed32 => ok := s.Write(FixedBytes(v.i, 4));
      case LFixed64 => ok := s.Write(FixedBytes(v.i, 8));
      case LBytes(cap) =>
        if |v.b| > cap {
          return false;
        }
        ok := s.EncodeString(v.b);
      case LString(_) => ok := s.EncodeString(v.b);
      case LFixedBytes(_) => ok := s.EncodeString(v.b);
      case LSubmessage(sub) => ok := EncSubmessage(s, sub, v.m);
    }
  }

  /** pb_encode_submessage: size first, then the length, then the message into
      a window of exactly that size.  The two passes agree, so "submsg size
      changed" cannot happen. */
  method EncSubmessage(s: OStream, sub: Descriptor, m: Message) returns (ok: bool)
    requires s.Valid() && WellFormed(sub) && TypedMessage(sub, m)
    modifies s.Frame()
    ensures s.Valid() && s.Kept()
    ensures s.Wrote(ok, match EncodeFrom(sub, m, 0) case None => None case Some(e) => Some(Prefixed(e)))
    decreases sub, |sub.fields| + 2, 1
  {
    var sizer := new OStream.Sizing();
    var sized := PbEncode(sizer, sub, m);
    if !sized {
      return false;
    }
    var size := sizer.bytesWritten;
    ghost var body := EncodeFrom(sub, m, 0).value;
    ok := s.EncodeVarint(size);
    if !ok {
      return false;
    }
    if s.buf == null {
      s.WriteNull(size, body);
      return true;
    }
    if s.bytesWritten + size > s.maxSize {
      return false;
    }
    ok := EncWindow(s, sub, m, size);
  }

  method EncWindow(s: OStream, sub: Descriptor, m: Message, size: nat) returns (ok: bool)
    requires s.Valid() && WellFormed(sub) && TypedMessage(sub, m)
    requires s.buf != null && s.bytesWritten + size <= s.maxSize
    requires EncodeFrom(sub, m, 0).Some? && |EncodeFrom(sub, m, 0).value| == size
    modifies s.Frame()
    ensures s.Valid() && s.Kept() && ok && s.Wrote(ok, EncodeFrom(sub, m, 0))
    decreases sub, |sub.fields| + 2, 0
  {
    hide EncodeFrom, TypedMessage;
    var window := new OStream.OnBuffer(s.buf, s.state, size);
    ghost var was := s.buf[..];
    ok := PbEncode(window, sub, m);
    assert ok && window.bytesWritten == size;
    Splice(was, s.buf[..], s.base, s.state, s.state + size, s.base + s.maxSize);
    s.bytesWritten := s.bytesWritten + window.bytesWritten;
    s.state := window.state;
    s.Written := s.Written + window.Written;
    if window.bytesWritten != size {
      return false;
    }
  }

  /** Writing [mid, hi) leaves what is below and above alone. */
  lemma Splice(x: seq<byte>, y: seq<byte>, lo: nat, mid: nat, hi: nat, end: nat)
    requires |x| == |y| && lo <= mid <= hi <= end <= |x|
    requires x[..mid] == y[..mid] && x[hi..] == y[hi..]
    ensures x[..lo] == y[..lo] && x[end..] == y[end..]
    ensures y[lo..hi] == x[lo..mid] + y[mid..hi]
  {
    assert x[..lo] == x[..mid][..lo] && y[..lo] == y[..mid][..lo];
    assert x[lo..mid] == x[..mid][lo..] && y[lo..mid] == y[..mid][lo..];
    assert x[end..] == x[hi..][end - hi..] && y[end..] == y[hi..][end - hi..];
  }

  lemma {:induction false} ItemsSome(lt: LType, vs: seq<Value>)
    requires Packable(lt) && LTypeOk(lt) && AllTyped(lt, vs)
    ensures EncodeItems(lt, vs).Some?
    ensures lt.LFixed32? ==> |EncodeItems(lt, vs).value| == 4 * |vs|
    ensures lt.LFixed64? ==> |EncodeItems(lt, vs).value| == 8 * |vs|
    decreases |vs|
  {
    if vs != [] {
      assert TypedValue(lt, vs[0]);
      ItemsSome(lt, vs[1..]);
    }
  }

  /** The items of a packed array, one after the other. */
  method EncItems(s: OStream, lt: LType, vs: seq<Value>) returns (ok: bool)
    requires s.Valid() && LTypeOk(lt) && Packable(lt)
    requires AllTyped(lt, vs)
    modifies s.Frame()
    ensures s.Valid() && s.Kept() && s.Wrote(ok, EncodeItems(lt, vs))
    decreases lt, 1
  {
    ItemsSome(lt, vs);
    ghost var all := EncodeItems(lt, vs).value;
    ghost var done, rest := [], all;
    var i := 0;
    assert vs[0..] == vs && [] + all == all;
    while i < |vs|
      invariant 0 <= i <= |vs|
      invariant s.Valid() && s.Kept() && s.Written == old(s.Written) + done
      invariant EncodeItems(lt, vs[i..]) == Some(rest) && all == done + rest
    {
      ghost var e, t := ItemsStep(lt, vs, i, done, rest);
      Assoc(old(s.Written), done, e);
      assert TypedValue(lt, vs[i]);
      ok := EncValue(s, lt, vs[i]);
      if !ok {
        return false;
      }
      done, rest := done + e, t;
      i := i + 1;
    }
    assert done + [] == done;
    return true;
  }

  lemma ItemsStep(lt: LType, vs: seq<Value>, i: nat, done: seq<byte>, rest: seq<byte>)
    returns (e: seq<byte>, t: seq<byte>)
    requires i < |vs| && EncodeItems(lt, vs[i..]) == Some(rest)
    ensures EncodeValue(lt, vs[i]) == Some(e) && EncodeItems(lt, vs[i + 1..]) == Some(t)
    ensures done + rest == done + e + t
  {
    assert vs[i..][0] == vs[i] && vs[i..][1..] == vs[i + 1..];
    e, t := ItemsCons(lt, vs[i..], rest);
  }

  /** "Determine the total size of packed array." */
  method PackedSize(lt: LType, vs: seq<Value>) returns (size: nat)
    requires LTypeOk(lt) && Packable(lt)
    requires AllTyped(lt, vs)
    ensures EncodeItems(lt, vs).Some? && size == |EncodeItems(lt, vs).value|
    decreases lt, 2
  {
    ItemsSome(lt, vs);
    if lt.LFixed32? {
      size := 4 * |vs|;
    } else if lt.LFixed64? {
      size := 8 * |vs|;
    } else {
      var sizer := new OStream.Sizing();
      var sized := EncItems(sizer, lt, vs);
      size := sizer.bytesWritten;
    }
  }

  /** encode_array, packed branch. */
  method EncPacked(s: OStream, tag: nat, lt: LType, vs: seq<Value>) returns (ok: bool)
    requires s.Valid() && LTypeOk(lt) && Packable(lt)
    requires AllTyped(lt, vs)
    modifies s.Frame()
    ensures s.Valid() && s.Kept() && EncodeItems(lt, vs).Some?
    ensures s.Wrote(ok, Some(TagBytes(2, tag) + Prefixed(EncodeItems(lt, vs).value)))
    decreases lt, 4
  {
    ItemsSome(lt, vs);
    ok := s.EncodeTag(2, tag);
    if ok {
      ok := EncPackedBody(s, lt, vs);
    }
  }

  method EncPackedBody(s: OStream, lt: LType, vs: seq<Value>) returns (ok: bool)
    requires s.Valid() && LTypeOk(lt) && Packable(lt)
    requires AllTyped(lt, vs)
    modifies s.Frame()
    ensures s.Valid() && s.Kept() && EncodeItems(lt, vs).Some?
    ensures s.Wrote(ok, Some(Prefixed(EncodeItems(lt, vs).value)))
    decreases lt, 3
  {
    var size := PackedSize(lt, vs);
    ok := s.EncodeVarint(size);
    if !ok {
      return false;
    }
    if s.buf == null {
      s.WriteNull(size, EncodeItems(lt, vs).value);
      return true;
    }
    ok := EncItems(s, lt, vs);
  }

  /** A tag and a value. */
  method EncOne(s: OStream, f: Field, v: Value) returns (ok: bool)
    requires s.Valid() && FieldOk(f) && LTypeOk(f.ltype) && TypedValue(f.ltype, v)
    modifies s.Frame()
    ensures s.Valid() && s.Kept() && s.Wrote(ok, EncodeOne(f.tag, f.ltype, v))
    decreases f, 0
  {
    ok := s.EncodeTag(WireType(f.ltype), f.tag);
    if ok {
      ok := EncValue(s, f.ltype, v);
    }
  }

  /** encode_array. */
  method EncArray(s: OStream, f: Field, vs: seq<Value>) returns (ok: bool)
    requires s.Valid() && FieldOk(f) && f.htype.Repeated? && LTypeOk(f.ltype)
    requires AllTyped(f.ltype, vs)
    modifies s.Frame()
    ensures s.Valid() && s.Kept() && s.Wrote(ok, EncodeArray(f.tag, f.ltype, f.htype.maxCount, vs))
    decreases f, 1
  {
    if vs == [] {
      return true;
    }
    if |vs| > f.htype.maxCount {
      return false;
    }
    if Packable(f.ltype) {
      ok := EncPacked(s, f.tag, f.ltype, vs);
      return;
    }
    var i := 0;
    ghost var done := [];
    assert vs[0..] == vs;
    EmptyAppend(EncodeTagged(f.tag, f.ltype, vs));
    while i < |vs|
      invariant 0 <= i <= |vs|
      invariant s.Valid() && s.Kept() && s.Written == old(s.Written) + done
      invariant EncodeTagged(f.tag, f.ltype, vs) == Append(Some(done), EncodeTagged(f.tag, f.ltype, vs[i..]))
      invariant i > 0 && s.buf != null ==> |old(s.Written)| + |done| <= s.maxSize
    {
      ghost var e := EncodeOne(f.tag, f.ltype, vs[i]);
      ghost var rest := EncodeTagged(f.tag, f.ltype, vs[i..][1..]);
      assert vs[i..][0] == vs[i] && vs[i..][1..] == vs[i + 1..];
      AppendStep(done, e, rest);
      assert TypedValue(f.ltype, vs[i]);
      ok := EncOne(s, f, vs[i]);
      if !ok {
        return false;
      }
      Assoc(old(s.Written), done, e.value);
      done := done + e.value;
      i := i + 1;
    }
    assert done + [] == done;
    return true;
  }

  /** encode_basic_field. */
  method EncField(s: OStream, f: Field, slot: Slot) returns (ok: bool)
    requires s.Valid() && FieldOk(f) && TypedSlot(f, slot)
    modifies s.Frame()
    ensures s.Valid() && s.Kept() && s.Wrote(ok, EncodeField(f, slot))
    decreases f, 2
  {
    assert LTypeOk(f.ltype);
    ok := true;
    match f.htype {
      case Required =>
        ok := EncOne(s, f, slot.v);
      case Optional =>
        if slot.has {
          ok := EncOne(s, f, slot.v);
        }
      case Repeated(_) =>
        ok := EncArray(s, f, slot.vs);
      case Oneof =>
        if slot.which == f.tag {
          ok := EncOne(s, f, slot.v);
        }
    }
  }

  /** pb_encode: the fields in table order. */
  method PbEncode(s: OStream, d: Descriptor, m: Message) returns (ok: bool)
    requires s.Valid() && WellFormed(d) && TypedMessage(d, m)
    modifies s.Frame()
    ensures s.Valid() && s.Kept() && s.Wrote(ok, EncodeFrom(d, m, 0))
    decreases d, |d.fields| + 1
  {
    if d.fields == [] {
      return true;
    }
    var iter := new FieldIter(d, 0xFFFF_FFFF);
    ghost var done := [];
    EmptyAppend(EncodeFrom(d, m, 0));
    while true
      invariant iter.Valid() && iter.d == d && fresh(iter) && iter.pos < |d.fields|
      invariant s.Valid() && s.Kept() && s.Written == old(s.Written) + done
      invariant EncodeFrom(d, m, 0) == Append(Some(done), EncodeFrom(d, m, iter.pos))
      invariant iter.pos > 0 && s.buf != null ==> |old(s.Written)| + |done| <= s.maxSize
      decreases |d.fields| - iter.pos
    {
      var i := iter.pos;
      assert FieldOk(d.fields[i]) && TypedSlot(d.fields[i], m.slots[d.fields[i].slot]);
      ghost var e := EncodeField(d.fields[i], m.slots[d.fields[i].slot]);
      ghost var rest := EncodeFrom(d, m, i + 1);
      AppendStep(done, e, rest);
      ok := EncField(s, d.fields[i], m.slots[d.fields[i].slot]);
      if !ok {
        return false;
      }
      Assoc(old(s.Written), done, e.value);
      done := done + e.value;
      var more := iter.Next();
      if !more {
        assert done + [] == done;
        return true;
      }
    }
  }

  /** pb_get_encoded_size. */
  method PbGetEncodedSize(d: Descriptor, m: Message) returns (ok: bool, size: nat)
    requires WellFormed(d) && TypedMessage(d, m)
    ensures ok <==> Encode(d, m).Some?
    ensures ok ==> size == |Encode(d, m).value|
  {
    var s := new OStream.Sizing();
    ok := PbEncode(s, d, m);
    size := s.bytesWritten;
  }

  /** Encoding into a buffer of a given capacity: it succeeds exactly when the
      size announced beforehand fits, writes exactly that many bytes, and
      touches nothing else. */
  method EncodeToBuffer(d: Descriptor, m: Message, a: array<byte>, size: nat) returns (ok: bool, written: nat)
    requires WellFormed(d) && TypedMessage(d, m) && size <= a.Length
    modifies a
    ensures ok <==> Encode(d, m).Some? && |Encode(d, m).value| <= size
    ensures ok ==> written == |Encode(d, m).value| && a[..written] == Encode(d, m).value
    ensures a[size..] == old(a[size..])
  {
    var s := new OStream.OnBuffer(a, 0, size);
    ok := PbEncode(s, d, m);
    written := s.bytesWritten;
  }
}
