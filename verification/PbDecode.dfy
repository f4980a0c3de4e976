/** The input streams and decoders of pb_decode.c, computing what PbWire says a
    byte string means.  `state` is the read pointer, an index into the buffer. */
module PbDecode {
  import opened Bytes
  import opened Options
  import opened Varint
  import opened PbModel
  import opened PbWire
  import opened PbRoundTrip
  import opened PbLaws
  import opened PbIterator
  import opened PbMemory

  // -- Streams -------------------------------------------------------------------------

  /** The first byte: the "quick case", or the start of the loop. */
  lemma Varint32First(b: byte, rest: seq<byte>, zero: nat)
    requires zero == 0
    ensures Varint32From([b] + rest, zero, zero) == if b >= 128 then Varint32From(rest, 1, b % 128)
        else Some(Parsed(b, rest))
  {
    Varint32Step(b, rest, zero, zero);
    Shift7Values(b % 128);
    assert Accumulate32(zero, zero, b) == b % 128;
  }

  lemma Halves(a: array<byte>, lo: nat, mid: nat, hi: nat)
    requires lo <= mid <= hi <= a.Length
    ensures a[lo..hi][..mid - lo] == a[lo..mid] && a[lo..hi][mid - lo..] == a[mid..hi]
  {
  }

  lemma SubstreamIs(bs: seq<byte>, a: array<byte>, lo: nat, mid: nat, hi: nat)
    requires lo <= mid <= hi <= a.Length
    requires Varint32(bs) == Some(Parsed(mid - lo, a[lo..hi]))
    ensures Substream(bs) == Some(Parsed(a[lo..mid], a[mid..hi]))
  {
    Halves(a, lo, mid, hi);
  }

  class IStream {
    const buf: array<byte>
    var state: nat
    var bytesLeft: nat

    ghost predicate Valid()
      reads this
    {
      state + bytesLeft <= buf.Length
    }

    /** The bytes this stream may still read. */
    ghost function Rest(): seq<byte>
      reads this, buf
      requires Valid()
    {
      buf[state..state + bytesLeft]
    }

    /** One past the last byte this stream may read. */
    ghost function End(): nat
      reads this
    {
      state + bytesLeft
    }

    /** On success the unread bytes are `rest`, up to the same end. */
    twostate predicate Left(ok: bool, new rest: Option<seq<byte>>)
      reads this, buf
      requires Valid()
    {
      (ok <==> rest.Some?) && (ok ==> Rest() == rest.value && End() == old(End()))
    }

    constructor (a: array<byte>, start: nat, size: nat)
      requires start + size <= a.Length
      ensures Valid() && buf == a && state == start && bytesLeft == size
    {
      buf, state, bytesLeft := a, start, size;
    }

    /** pb_read; the bytes read are the result. */
    method Read(count: nat) returns (ok: bool, data: seq<byte>)
      requires Valid()
      modifies this
      ensures Valid() && End() == old(End())
      ensures ok <==> Take(count, old(Rest())).Some?
      ensures ok ==> Take(count, old(Rest())) == Some(Parsed(data, Rest()))
      ensures !ok ==> state == old(state)
    {
      if bytesLeft < count {
        return false, [];
      }
      data := buf[state..state + count];
      Halves(buf, state, state + count, state + bytesLeft);
      state := state + count;
      bytesLeft := bytesLeft - count;
      ok := true;
    }

    /** pb_readbyte. */
    method ReadByte() returns (ok: bool, b: byte)
      requires Valid()
      modifies this
      ensures Valid() && End() == old(End())
      ensures ok <==> old(Rest()) != []
      ensures ok ==> old(Rest()) == [b] + Rest() && b == old(Rest())[0] && Rest() == old(Rest())[1..]
      ensures !ok ==> state == old(state)
    {
      if bytesLeft == 0 {
        return false, 0;
      }
      b := buf[state];
      state := state + 1;
      bytesLeft := bytesLeft - 1;
      ok := true;
    }

    /** pb_decode_varint. */
    method DecodeVarint() returns (ok: bool, dest: nat)
      requires Valid()
      modifies this
      ensures Valid() && End() == old(End())
      ensures ok <==> Varint64(old(Rest())).Some?
      ensures ok ==> Varint64(old(Rest())) == Some(Parsed(dest, Rest()))
    {
      var bitpos: nat, result: nat := 0, 0;
      ghost var k := 0;
      ghost var meaning := Varint64(Rest());
      while true
        invariant Valid() && End() == old(End()) && bitpos == 7 * k
        invariant Varint64From(Rest(), k, result) == meaning
        decreases bytesLeft
      {
        if bitpos >= 64 {
          return false, 0;
        }
        var more, b := ReadByte();
        if !more {
          return false, 0;
        }
        Varint64Step(b, Rest(), k, result);
        result := (result + Shift7(b % 128, bitpos / 7)) % TWO64;
        bitpos, k := bitpos + 7, k + 1;
        if b < 128 {
          return true, result;
        }
      }
    }

    /** One byte after the first in pb_decode_varint32_eof; false on overflow. */
    static method Absorb32(result: nat, bitpos: nat, b: byte, ghost k: nat) returns (fits: bool, next: nat)
      requires result < TWO32 && bitpos == 7 * k
      ensures fits <==> !Overflows32(result, k, b)
      ensures fits ==> next == Accumulate32(result, k, b)
    {
      next := result;
      if bitpos >= 32 {
        var signExtension := if bitpos < 63 then 0xFF else 0x01;
        if b % 128 != 0 && (result < TWO31 || b != signExtension) {
          return false, 0;
        }
      } else {
        next := (result + Shift7(b % 128, bitpos / 7)) % TWO32;
      }
      fits := true;
    }

    /** pb_decode_varint32_eof; `eof` when there was no byte at all. */
    method DecodeVarint32() returns (ok: bool, dest: nat, eof: bool)
      requires Valid()
      modifies this
      ensures Valid() && End() == old(End())
      ensures ok <==> Varint32(old(Rest())).Some?
      ensures ok ==> Varint32(old(Rest())) == Some(Parsed(dest, Rest()))
      ensures eof <==> old(Rest()) == []
      ensures ok ==> dest < TWO32
    {
      var more, b := ReadByte();
      if !more {
        return false, 0, true;
      }
      Varint32First(b, Rest(), 0);
      if b < 128 {
        return true, b, false;
      }
      ok, dest := MoreVarint32(b);
      eof := false;
    }

    /** "Multibyte case". */
    method MoreVarint32(first: byte) returns (ok: bool, dest: nat)
      requires Valid() && first >= 128
      modifies this
      ensures Valid() && End() == old(End())
      ensures match Varint32From(old(Rest()), 1, first % 128)
              case None => !ok
              case Some(p) => ok && dest == p.val && Rest() == p.rest
    {
      var b, result, bitpos: nat := first, first % 128, 7;
      ghost var k, meaning := 1, Varint32From(Rest(), 1, result);
      while b >= 128
        invariant Valid() && End() == old(End()) && bitpos == 7 * k && 0 <= result < TWO32
        invariant meaning == if b >= 128 then Varint32From(Rest(), k, result) else Ended32(k, b, result, Rest())
        decreases b >= 128, bytesLeft
      {
        ok, b := ReadByte();
        if !ok {
          return false, 0;
        }
        Varint32Step(b, Rest(), k, result);
        ok, result := Absorb32(result, bitpos, b, k);
        if !ok {
          return false, 0;
        }
        bitpos, k := bitpos + 7, k + 1;
      }
      if bitpos == 35 && b / 16 % 8 != 0 {
        return false, 0;
      }
      return true, result;
    }

    /** pb_decode_tag; the caller only looks at `eof` on failure. */
    method DecodeTag() returns (ok: bool, tag: nat, wt: nat, eof: bool)
      requires Valid() && bytesLeft > 0
      modifies this
      ensures Valid() && End() == old(End())
      ensures match ReadTag(old(Rest()))
              case TagFailed => !ok && !eof
              case TagStop(rest) => !ok && eof && Rest() == rest
              case Tagged(t, w, rest) => ok && tag == t && wt == w && Rest() == rest
    {
      var got, temp, none := DecodeVarint32();
      if !got {
        return false, 0, 0, none;
      }
      if temp == 0 {
        return false, 0, 0, true;
      }
      return true, temp / 8, temp % 8, false;
    }

    /** pb_make_string_substream. */
    method MakeSubstream() returns (ok: bool, sub: IStream)
      requires Valid()
      modifies this
      ensures Valid() && sub.Valid() && fresh(sub) && sub.buf == buf
      ensures match Substream(old(Rest()))
              case None => !ok
              case Some(p) =>
                && ok && sub.state == state && sub.End() + bytesLeft == old(End())
                && sub.Rest() == p.val && buf[sub.End()..old(End())] == p.rest
    {
      var size, eof;
      ok, size, eof := DecodeVarint32();
      sub := new IStream(buf, state, bytesLeft);
      if !ok || sub.bytesLeft < size {
        return false, sub;
      }
      SubstreamIs(old(Rest()), buf, state, state + size, End());
      sub.bytesLeft := size;
      bytesLeft := bytesLeft - size;
    }

    /** pb_close_string_substream: skips what the substream left unread. */
    method CloseSubstream(sub: IStream) returns (ok: bool)
      requires Valid() && sub.Valid() && sub != this && sub.buf == buf && sub.End() + bytesLeft <= buf.Length
      modifies this, sub
      ensures Valid() && ok
      ensures state == old(sub.End()) && bytesLeft == old(bytesLeft)
    {
      if sub.bytesLeft > 0 {
        var all, skipped := sub.Read(sub.bytesLeft);
      }
      state := sub.state;
      return true;
    }

    /** pb_skip_varint. */
    method SkipVarint() returns (ok: bool)
      requires Valid()
      modifies this
      ensures Valid() && Left(ok, PbWire.SkipVarint(old(Rest())))
    {
      while true
        invariant Valid() && End() == old(End())
        invariant PbWire.SkipVarint(Rest()) == PbWire.SkipVarint(old(Rest()))
        decreases bytesLeft
      {
        var more, b := ReadByte();
        if !more {
          return false;
        }
        if b < 128 {
          return true;
        }
      }
    }

    /** pb_skip_field. */
    method SkipField(wt: nat) returns (ok: bool)
      requires Valid()
      modifies this
      ensures Valid() && Left(ok, Skip(wt, old(Rest())))
    {
      var skipped;
      if wt == 0 {
        ok := SkipVarint();
      } else if wt == 1 {
        ok, skipped := Read(8);
      } else if wt == 2 {
        var length, eof;
        ok, length, eof := DecodeVarint32();
        if ok {
          ok, skipped := Read(length);
        }
      } else if wt == 5 {
        ok, skipped := Read(4);
      } else {
        ok := false;
      }
    }
  }

  // -- Field decoders -------------------------------------------------------------------

  /** The `n` bytes at `at`, which a value is decoded into. */
  ghost function Entry(at: int, n: nat): Place {
    Place(at, at + n)
  }

  /** pb_dec_varint, pb_dec_uvarint, pb_dec_svarint, pb_dec_fixed32/64.  A varint is
      stored before its range is checked. */
  method DecInt(s: IStream, lt: LType, mem: Dest, at: int, ghost n: nat) returns (ok: bool, v: Value)
    requires s.Valid() && Packable(lt) && LTypeOk(lt) && Stores(lt, n)
    modifies s, mem
    ensures s.Valid() && s.End() == old(s.End())
    ensures Grew(old(mem.Log), mem.Log, Entry(at, n), Entry(at, n))
    ensures ok <==> DecodeInt(lt, old(s.Rest())).Some?
    ensures ok ==> DecodeInt(lt, old(s.Rest())) == Some(Parsed(v, s.Rest()))
  {
    v := IntV(0);
    match lt {
      case LVarint(size) =>
        var u;
        ok, u := s.DecodeVarint();
        if ok {
          var svalue := if size == 8 then AsInt64(u) else AsInt32(u);
          mem.Store(Data(at, size));
          ok := InSigned(svalue, size);
          v := IntV(svalue);
        }
      case LUvarint(size) =>
        var u;
        ok, u := s.DecodeVarint();
        if ok {
          mem.Store(Data(at, size));
          ok := InUnsigned(u, size);
          v := IntV(u);
        }
      case LSvarint(size) =>
        var u;
        ok, u := s.DecodeVarint();
        if ok {
          mem.Store(Data(at, size));
          ok := InSigned(UnZigZag(u), size);
          v := IntV(UnZigZag(u));
        }
      case LFixed32 =>
        var bytes;
        ok, bytes := s.Read(4);
        if ok {
          mem.Store(Data(at, 4));
        }
        v := IntV(FixedValue(bytes));
      case LFixed64 =>
        var bytes;
        ok, bytes := s.Read(8);
        if ok {
          mem.Store(Data(at, 8));
        }
        v := IntV(FixedValue(bytes));
    }
  }

  /** A write somewhere in an entry. */
  method StoreIn(mem: Dest, off: int, len: nat, ghost at: int, ghost n: nat, ghost start: seq<Write>)
    requires at <= off && off + len <= at + n && Grew(start, mem.Log, Entry(at, n), Entry(at, n))
    modifies mem
    ensures Grew(start, mem.Log, Entry(at, n), Entry(at, n))
  {
    ghost var log := mem.Log;
    mem.Store(Data(off, len));
    GrewMore(start, log, mem.Log, Entry(at, n), Entry(at, n), Entry(off, len), Entry(off, len));
  }

  /** pb_dec_bytes.  The size is stored even when the data cannot be read. */
  method DecBytesArray(s: IStream, lt: LType, mem: Dest, at: int, ghost n: nat) returns (ok: bool, v: Value)
    requires s.Valid() && lt.LBytes? && Stores(lt, n)
    modifies s, mem
    ensures s.Valid()
    ensures Grew(old(mem.Log), mem.Log, Entry(at, n), Entry(at, n))
    ensures match DecodeBytes(lt, old(s.Rest()))
            case None => !ok
            case Some(p) => ok && v == p.val && s.Rest() == p.rest && s.End() == old(s.End())
  {
    hide Grew;
    GrewNot(mem.Log, Entry(at, n));
    v := IntV(0);
    var size, data, eof;
    ok, size, eof := s.DecodeVarint32();
    if !ok {
      return;
    }
    if size > lt.cap {
      return false, v;
    }
    StoreIn(mem, at, COUNT_SIZE, at, n, old(mem.Log));
    ok, data := s.Read(size);
    if ok {
      StoreIn(mem, at + COUNT_SIZE, size, at, n, old(mem.Log));
    }
    v := BytesV(data);
  }

  /** pb_dec_string.  The NUL is stored even when the data cannot be read. */
  method DecString(s: IStream, lt: LType, mem: Dest, at: int, ghost n: nat) returns (ok: bool, v: Value)
    requires s.Valid() && lt.LString? && Stores(lt, n)
    modifies s, mem
    ensures s.Valid()
    ensures Grew(old(mem.Log), mem.Log, Entry(at, n), Entry(at, n))
    ensures match DecodeBytes(lt, old(s.Rest()))
            case None => !ok
            case Some(p) => ok && v == p.val && s.Rest() == p.rest && s.End() == old(s.End())
  {
    hide Grew;
    GrewNot(mem.Log, Entry(at, n));
    v := IntV(0);
    var size, data, eof;
    ok, size, eof := s.DecodeVarint32();
    if !ok {
      return;
    }
    if size + 1 > lt.size {
      return false, v;
    }
    ok, data := s.Read(size);
    if ok {
      StoreIn(mem, at, size, at, n, old(mem.Log));
    }
    StoreIn(mem, at + size, 1, at, n, old(mem.Log));
    v := BytesV(UpToNul(data));
  }

  /** pb_dec_fixed_length_bytes. */
  method DecFixedBytes(s: IStream, lt: LType, mem: Dest, at: int, ghost n: nat) returns (ok: bool, v: Value)
    requires s.Valid() && lt.LFixedBytes? && Stores(lt, n)
    modifies s, mem
    ensures s.Valid()
    ensures Grew(old(mem.Log), mem.Log, Entry(at, n), Entry(at, n))
    ensures match DecodeBytes(lt, old(s.Rest()))
            case None => !ok
            case Some(p) => ok && v == p.val && s.Rest() == p.rest && s.End() == old(s.End())
  {
    hide Grew;
    GrewNot(mem.Log, Entry(at, n));
    v := IntV(0);
    var size, data, eof;
    ok, size, eof := s.DecodeVarint32();
    if !ok {
      return;
    }
    if size == 0 {
      StoreIn(mem, at, lt.size, at, n, old(mem.Log));
      return true, BytesV(Zeros(lt.size));
    }
    if size != lt.size {
      return false, v;
    }
    ok, data := s.Read(size);
    if ok {
      StoreIn(mem, at, lt.size, at, n, old(mem.Log));
    }
    v := BytesV(data);
  }

  lemma GrewNot(log: seq<Write>, p: Place)
    ensures Grew(log, log, p, p)
  {
  }

  /** A submessage as pb_dec_submessage reads it onto `m`. */
  function DecodeSubmessage(sub: Descriptor, m: Message, bs: seq<byte>): Option<Parsed<Message>>
    requires WellFormed(sub) && |m.slots| == sub.slots
  {
    match Substream(bs)
    case None => None
    case Some(p) => match DecodeNoinit(sub, m, p.val) case None => None case Some(l) => Some(Parsed(l.m, p.rest))
  }

  /** pb_field_set_to_default. */
  method SetFieldToDefault(f: Field, mem: Dest, pData: int, pSize: int) returns (slot: Slot)
    requires FieldOk(f) && Stores(f.ltype, f.place.dataSize) && pSize == pData + f.place.sizeOffset
    modifies mem
    ensures slot == DefaultSlot(f)
    ensures Grew(old(mem.Log), mem.Log, DataPlace(f, pData), SizePlace(f, pData))
    decreases f
  {
    ghost var p, q := DataPlace(f, pData), SizePlace(f, pData);
    match f.htype {
      case Repeated(_) =>
        mem.Store(Count(pSize, 0));
        return Many([]);
      case Oneof =>
        mem.Store(Which(pSize, 0));
        return Union(0, IntV(0));
      case Optional =>
        if pSize != pData {
          mem.Store(Flag(pSize, false));
        }
      case Required =>
    }
    ghost var log := mem.Log;
    var v := f.init;
    assert LTypeOk(f.ltype);
    if f.ltype.LSubmessage? {
      var m := SetToDefaults(f.ltype.sub, mem, pData, f.place.dataSize);
      v := MsgV(m);
    } else {
      mem.Store(Data(pData, f.place.dataSize));
    }
    GrewMore(old(mem.Log), log, mem.Log, p, q, p, p);
    slot := if f.htype.Required? then Plain(v) else Maybe(false, v);
  }

  lemma Laid(d: Descriptor, size: nat)
    requires Struct(d, size)
    ensures LaidOut(d.fields, Offsets(d.fields), SIZE_MAX)
  {
  }

  lemma MemberAt(d: Descriptor, size: nat, i: nat)
    requires WellFormed(d) && Struct(d, size) && i < |d.fields|
    ensures FieldOk(d.fields[i]) && d.fields[i].slot < d.slots
    ensures Stores(d.fields[i].ltype, d.fields[i].place.dataSize)
  {
    MemberStores(d, size, i);
  }

  /** A member of a struct at `base` lies inside it. */
  lemma FieldInStruct(d: Descriptor, size: nat, i: nat, base: int)
    requires Struct(d, size) && i < |d.fields|
    ensures var f, at := d.fields[i], base + Offsets(d.fields)[i];
            Within(DataPlace(f, at), Entry(base, size)) && Within(SizePlace(f, at), Entry(base, size))
  {
    assert Member(d.fields[i], Offsets(d.fields)[i], size);
    hide Struct, Stores;
  }

  /** The iterator stands on a member of a struct of `size` bytes, at its true place. */
  ghost predicate Points(iter: FieldIter, size: nat)
    reads iter
    requires iter.Valid()
  {
    Struct(iter.d, size) && iter.sizeMax == SIZE_MAX && iter.InPlace(Offsets(iter.d.fields))
  }

  lemma PointsInside(iter: FieldIter, size: nat, base: int)
    requires iter.Valid() && iter.d.fields != [] && Points(iter, size)
    ensures var f := iter.d.fields[iter.pos];
            && Within(DataPlace(f, base + iter.pData), Entry(base, size))
            && Within(SizePlace(f, base + iter.pData), Entry(base, size))
            && iter.pSize == iter.pData + f.place.sizeOffset && Stores(f.ltype, f.place.dataSize)
  {
    hide Struct, Stores;
    FieldInStruct(iter.d, size, iter.pos, base);
    MemberStores(iter.d, size, iter.pos);
  }

  lemma MemberStores(d: Descriptor, size: nat, i: nat)
    requires Struct(d, size) && i < |d.fields|
    ensures Stores(d.fields[i].ltype, d.fields[i].place.dataSize)
  {
    assert Member(d.fields[i], Offsets(d.fields)[i], size);
  }

  /** pb_field_iter_next keeps the pointers in place. */
  method NextIn(iter: FieldIter, ghost size: nat) returns (more: bool)
    requires iter.Valid() && Points(iter, size)
    modifies iter
    ensures iter.Valid() && Points(iter, size)
    ensures iter.pos == if old(iter.pos) + 1 < |iter.d.fields| then old(iter.pos) + 1 else 0
    ensures more <==> iter.pos != 0
  {
    hide Struct;
    Laid(iter.d, size);
    more := iter.Next();
  }

  /** pb_message_set_to_defaults. */
  method SetToDefaults(d: Descriptor, mem: Dest, base: int, size: nat) returns (m: Message)
    requires WellFormed(d) && Struct(d, size)
    modifies mem
    ensures m == Defaults(d)
    ensures Grew(old(mem.Log), mem.Log, Entry(base, size), Entry(base, size))
    decreases d, 1
  {
    hide DefaultSlot, LaidOut, Struct, Stores, WellFormed, Grew, DataPlace, SizePlace, Offsets, RequiredBefore;
    GrewNot(mem.Log, Entry(base, size));
    m := Message(seq(d.slots, _ => Many([])));
    assert DefaultsFrom(d, 0, m) == Defaults(d) by {
      assert m == Message(seq(d.slots, _ => Many([])));
    }
    var iter := new FieldIter(d, SIZE_MAX);
    Laid(d, size);
    if d.fields == [] {
      return;
    }
    var more := true;
    while more
      invariant iter.Valid() && iter.d == d && Points(iter, size) && |m.slots| == d.slots
      invariant Defaults(d) == if more then DefaultsFrom(d, iter.pos, m) else m
      invariant Grew(old(mem.Log), mem.Log, Entry(base, size), Entry(base, size))
      decreases more, |d.fields| - iter.pos
    {
      ghost var log, at := mem.Log, base + iter.pData;
      var f := d.fields[iter.pos];
      MemberAt(d, size, iter.pos);
      PointsInside(iter, size, base);
      var slot := SetFieldToDefault(f, mem, base + iter.pData, base + iter.pSize);
      GrewMore(old(mem.Log), log, mem.Log, Entry(base, size), Entry(base, size), DataPlace(f, at), SizePlace(f, at));
      m := Message(m.slots[f.slot := slot]);
      more := NextIn(iter, size);
    }
  }

  /** pb_dec_submessage. */
  method DecSubmessage(s: IStream, d: Descriptor, dest: Message, repeated: bool, mem: Dest, at: int, n: nat)
    returns (ok: bool, m: Message)
    requires s.Valid() && WellFormed(d) && |dest.slots| == d.slots && Struct(d, n)
    requires repeated ==> dest == Defaults(d)
    modifies s, mem
    ensures s.Valid()
    ensures Grew(old(mem.Log), mem.Log, Entry(at, n), Entry(at, n))
    ensures match DecodeSubmessage(d, dest, old(s.Rest()))
            case None => !ok
            case Some(p) => ok && m == p.val && s.Rest() == p.rest && s.End() == old(s.End())
    decreases s.bytesLeft, 5
  {
    hide Struct, Grew, DecodeNoinit, Defaults, WellFormed, LaidOut, RequiredBefore;
    var sub, status;
    m := dest;
    GrewNot(mem.Log, Entry(at, n));
    ok, sub := s.MakeSubstream();
    if !ok {
      return;
    }
    ghost var after, end, left := s.buf[sub.End()..old(s.End())], sub.End(), s.bytesLeft;
    if repeated {
      // New array entries need to be initialized.
      m := SetToDefaults(d, mem, at, n);
    }
    ghost var log := mem.Log;
    status, m := PbDecodeNoinit(sub, d, m, mem, at, n);
    GrewMore(old(mem.Log), log, mem.Log, Entry(at, n), Entry(at, n), Entry(at, n), Entry(at, n));
    if !status {
      return false, m;
    }
    assert s.bytesLeft == left && sub.End() == end;
    ok := s.CloseSubstream(sub);
    assert s.state == end && s.state + s.bytesLeft == old(s.End());
    assert s.Rest() == after;
  }

  /** PB_DECODERS. */
  method DecValue(s: IStream, lt: LType, prev: Value, repeated: bool, mem: Dest, at: int, n: nat)
    returns (ok: bool, v: Value)
    requires s.Valid() && LTypeOk(lt) && Stores(lt, n)
    requires repeated && lt.LSubmessage? ==> prev == MsgV(Defaults(lt.sub))
    modifies s, mem
    ensures s.Valid()
    ensures Grew(old(mem.Log), mem.Log, Entry(at, n), Entry(at, n))
    ensures match DecodeValue(lt, prev, old(s.Rest()))
            case None => !ok
            case Some(p) => ok && v == p.val && s.Rest() == p.rest && s.End() == old(s.End())
    decreases s.bytesLeft, 6, 0
  {
    if Packable(lt) {
      ok, v := DecInt(s, lt, mem, at, n);
    } else if lt.LBytes? {
      ok, v := DecBytesArray(s, lt, mem, at, n);
    } else if lt.LString? {
      ok, v := DecString(s, lt, mem, at, n);
    } else if lt.LFixedBytes? {
      ok, v := DecFixedBytes(s, lt, mem, at, n);
    } else {
      var m;
      ok, m := DecSubmessage(s, lt.sub, Onto(lt.sub, prev), repeated, mem, at, n);
      v := MsgV(m);
    }
  }

  /** A repeated field of scalars, with its pointers. */
  predicate PackedArray(f: Field, pData: int, pSize: int) {
    && FieldOk(f) && f.htype.Repeated? && Packable(f.ltype) && LTypeOk(f.ltype)
    && Stores(f.ltype, f.place.dataSize) && pSize == pData + f.place.sizeOffset
  }

  /** Item `k` of an array lies inside it. */
  lemma ItemInArray(f: Field, pData: int, k: nat)
    requires f.htype.Repeated? && k < f.htype.maxCount
    ensures Within(Entry(pData + f.place.dataSize * k, f.place.dataSize), DataPlace(f, pData))
  {
    ItemsFit(f.place.dataSize, k, f.htype.maxCount);
  }

  lemma ItemsFit(n: nat, k: nat, max: nat)
    requires k < max
    ensures 0 <= n * k && n * k + n <= n * max
  {
    var more := max - k - 1;
    assert n * max == n * (k + 1 + more) == n * k + n + n * more;
  }

  /** An item and then the count of its array. */
  lemma ItemGrew(before: seq<Write>, item: seq<Write>, f: Field, pData: int, k: nat)
    requires f.htype.Repeated? && k < f.htype.maxCount
    requires Grew(before, item, Entry(pData + f.place.dataSize * k, f.place.dataSize),
                  Entry(pData + f.place.dataSize * k, f.place.dataSize))
    ensures Grew(before, item, DataPlace(f, pData), SizePlace(f, pData))
  {
    ItemInArray(f, pData, k);
    hide DataPlace, SizePlace;
    GrewMore(before, before, item, DataPlace(f, pData), SizePlace(f, pData),
             Entry(pData + f.place.dataSize * k, f.place.dataSize),
             Entry(pData + f.place.dataSize * k, f.place.dataSize));
  }

  /** Counting an item. */
  method StoreCount(f: Field, mem: Dest, pData: int, pSize: int, n: nat)
    requires f.htype.Repeated? && pSize == pData + f.place.sizeOffset
    modifies mem
    ensures mem.Log == old(mem.Log) + [Count(pSize, n)]
    ensures Grew(old(mem.Log), mem.Log, DataPlace(f, pData), SizePlace(f, pData))
  {
    mem.Store(Count(pSize, n));
  }

  /** The packed loop of decode_static_field, on the substream. */
  method DecPacked(sub: IStream, f: Field, got: seq<Value>, mem: Dest, pData: int, pSize: int)
    returns (ok: bool, vs: seq<Value>)
    requires sub.Valid() && PackedArray(f, pData, pSize)
    modifies sub, mem
    ensures sub.Valid()
    ensures Grew(old(mem.Log), mem.Log, DataPlace(f, pData), SizePlace(f, pData))
    ensures match DecodePacked(f.ltype, f.htype.maxCount, got, old(sub.Rest()))
            case None => !ok
            case Some(all) => ok && vs == all && sub.bytesLeft == 0 && sub.End() == old(sub.End())
  {
    hide DataPlace, SizePlace, Stores;
    ghost var p, q := DataPlace(f, pData), SizePlace(f, pData);
    vs := got;
    var status := true;
    while sub.bytesLeft > 0 && |vs| < f.htype.maxCount
      invariant sub.Valid() && sub.End() == old(sub.End()) && status
      invariant DecodePacked(f.ltype, f.htype.maxCount, vs, sub.Rest())
             == DecodePacked(f.ltype, f.htype.maxCount, got, old(sub.Rest()))
      invariant Grew(old(mem.Log), mem.Log, p, q)
      decreases sub.bytesLeft
    {
      ghost var log := mem.Log;
      var v;
      status, v := DecInt(sub, f.ltype, mem, pData + f.place.dataSize * |vs|, f.place.dataSize);
      ItemGrew(log, mem.Log, f, pData, |vs|);
      GrewMore(old(mem.Log), log, mem.Log, p, q, p, q);
      if !status {
        break;
      }
      vs := vs + [v];
      log := mem.Log;
      StoreCount(f, mem, pData, pSize, |vs|);
      GrewMore(old(mem.Log), log, mem.Log, p, q, p, q);
    }
    if sub.bytesLeft != 0 {
      return false, vs;
    }
    ok := status;
  }

  /** A packed array as decode_static_field appends it to `got`. */
  function DecodePackedField(lt: LType, maxCount: nat, got: seq<Value>, bs: seq<byte>): Option<Parsed<seq<Value>>>
    requires Packable(lt) && LTypeOk(lt)
  {
    match Substream(bs)
    case None => None
    case Some(p) =>
      match DecodePacked(lt, maxCount, got, p.val) case None => None case Some(vs) => Some(Parsed(vs, p.rest))
  }

  method DecPackedField(s: IStream, f: Field, got: seq<Value>, mem: Dest, pData: int, pSize: int)
    returns (ok: bool, vs: seq<Value>)
    requires s.Valid() && PackedArray(f, pData, pSize)
    modifies s, mem
    ensures s.Valid()
    ensures Grew(old(mem.Log), mem.Log, DataPlace(f, pData), SizePlace(f, pData))
    ensures match DecodePackedField(f.ltype, f.htype.maxCount, got, old(s.Rest()))
            case None => !ok
            case Some(p) => ok && vs == p.val && s.Rest() == p.rest && s.End() == old(s.End())
  {
    var sub;
    ok, sub := s.MakeSubstream();
    if !ok {
      return false, got;
    }
    ghost var after, end, left := s.buf[sub.End()..old(s.End())], sub.End(), s.bytesLeft;
    ok, vs := DecPacked(sub, f, got, mem, pData, pSize);
    if !ok {
      return;
    }
    assert s.bytesLeft == left && sub.End() == end;
    ok := s.CloseSubstream(sub);
    assert s.state == end && s.state + s.bytesLeft == old(s.End());
    assert s.Rest() == after;
  }

  /** The field is an array, to be read item by item, that is full already. */
  predicate Overflows(f: Field, slot: Slot, wt: nat) {
    f.htype.Repeated? && !(wt == 2 && Packable(f.ltype)) && |Items(slot)| >= f.htype.maxCount
  }

  /** decode_static_field.  Whether it succeeds or not, it writes to the member of this
      field and to its flag, count or which_ only; a full array has its count raised
      past the maximum before it is refused. */
  method DecField(s: IStream, wt: nat, f: Field, slot: Slot, mem: Dest, pData: int, pSize: int)
      returns (ok: bool, next: Slot)
    requires s.Valid() && FieldOk(f) && Stores(f.ltype, f.place.dataSize) && pSize == pData + f.place.sizeOffset
    modifies s, mem
    ensures s.Valid()
    ensures ok <==> DecodeField(f, slot, wt, old(s.Rest())).Some?
    ensures ok ==> DecodeField(f, slot, wt, old(s.Rest())) == Some(Parsed(next, s.Rest())) && s.End() == old(s.End())
    ensures Grew(old(mem.Log), mem.Log, DataPlace(f, pData), SizePlace(f, pData))
    ensures Overflows(f, slot, wt) ==> !ok && mem.Log == old(mem.Log) + [Count(pSize, |Items(slot)| + 1)]
    decreases s.bytesLeft, 7
  {
    hide Stores, DecodeValue;
    assert LTypeOk(f.ltype);
    next := slot;
    var v;
    match f.htype {
      case Required =>
        ok, v := DecValue(s, f.ltype, Held(slot), false, mem, pData, f.place.dataSize);
        next := Plain(v);
      case Optional =>
        ok, v := DecOptional(s, f, slot, mem, pData, pSize);
        next := Maybe(true, v);
      case Repeated(_) =>
        if wt == 2 && Packable(f.ltype) {
          var vs;
          ok, vs := DecPackedField(s, f, Items(slot), mem, pData, pSize);
          next := Many(vs);
        } else {
          ok, v := DecItem(s, f, slot, mem, pData, pSize);
          next := Many(Items(slot) + [v]);
        }
      case Oneof =>
        ok, v := DecOneof(s, f, mem, pData, pSize);
        next := Union(f.tag, v);
    }
  }

  /** The optional branch. */
  method DecOptional(s: IStream, f: Field, slot: Slot, mem: Dest, pData: int, pSize: int) returns (ok: bool, v: Value)
    requires s.Valid() && FieldOk(f) && LTypeOk(f.ltype) && f.htype.Optional?
    requires Stores(f.ltype, f.place.dataSize) && pSize == pData + f.place.sizeOffset
    modifies s, mem
    ensures s.Valid()
    ensures match DecodeValue(f.ltype, Held(slot), old(s.Rest()))
            case None => !ok
            case Some(p) => ok && v == p.val && s.Rest() == p.rest && s.End() == old(s.End())
    ensures Grew(old(mem.Log), mem.Log, DataPlace(f, pData), SizePlace(f, pData))
    decreases s.bytesLeft, 6, 1
  {
    hide Stores, DecodeValue;
    ghost var p, q := DataPlace(f, pData), SizePlace(f, pData);
    if pSize != pData {
      mem.Store(Flag(pSize, true));
    }
    ghost var log := mem.Log;
    ok, v := DecValue(s, f.ltype, Held(slot), false, mem, pData, f.place.dataSize);
    GrewMore(old(mem.Log), log, mem.Log, p, q, p, p);
  }

  /** "Repeated field". */
  method DecItem(s: IStream, f: Field, slot: Slot, mem: Dest, pData: int, pSize: int) returns (ok: bool, v: Value)
    requires s.Valid() && FieldOk(f) && LTypeOk(f.ltype) && f.htype.Repeated?
    requires Stores(f.ltype, f.place.dataSize) && pSize == pData + f.place.sizeOffset
    modifies s, mem
    ensures s.Valid()
    ensures if |Items(slot)| >= f.htype.maxCount then !ok && mem.Log == old(mem.Log) + [Count(pSize, |Items(slot)| + 1)]
            else match DecodeValue(f.ltype, InitValue(f), old(s.Rest()))
                 case None => !ok
                 case Some(p) => ok && v == p.val && s.Rest() == p.rest && s.End() == old(s.End())
    ensures Grew(old(mem.Log), mem.Log, DataPlace(f, pData), SizePlace(f, pData))
    decreases s.bytesLeft, 6, 1
  {
    hide Stores, DecodeValue, DataPlace, SizePlace;
    ghost var p, q := DataPlace(f, pData), SizePlace(f, pData);
    var size := |Items(slot)|;
    StoreCount(f, mem, pData, pSize, size + 1);
    if size >= f.htype.maxCount {
      return false, IntV(0);
    }
    ghost var log := mem.Log;
    ok, v := DecValue(s, f.ltype, InitValue(f), true, mem, pData + f.place.dataSize * size, f.place.dataSize);
    ItemGrew(log, mem.Log, f, pData, size);
    GrewMore(old(mem.Log), log, mem.Log, p, q, p, q);
  }

  /** The oneof branch: a submessage is cleared and set to its defaults first. */
  method DecOneof(s: IStream, f: Field, mem: Dest, pData: int, pSize: int) returns (ok: bool, v: Value)
    requires s.Valid() && FieldOk(f) && LTypeOk(f.ltype) && f.htype.Oneof?
    requires Stores(f.ltype, f.place.dataSize) && pSize == pData + f.place.sizeOffset
    modifies s, mem
    ensures s.Valid()
    ensures match DecodeValue(f.ltype, InitValue(f), old(s.Rest()))
            case None => !ok
            case Some(p) => ok && v == p.val && s.Rest() == p.rest && s.End() == old(s.End())
    ensures Grew(old(mem.Log), mem.Log, DataPlace(f, pData), SizePlace(f, pData))
    decreases s.bytesLeft, 6, 1
  {
    hide DecodeValue;
    ghost var p, q := DataPlace(f, pData), SizePlace(f, pData);
    mem.Store(Which(pSize, f.tag));
    ghost var log := mem.Log;
    if f.ltype.LSubmessage? {
      mem.Store(Data(pData, f.place.dataSize));
      GrewMore(old(mem.Log), log, mem.Log, p, q, p, p);
      log := mem.Log;
      var m := SetToDefaults(f.ltype.sub, mem, pData, f.place.dataSize);
      GrewMore(old(mem.Log), log, mem.Log, p, q, p, p);
      log := mem.Log;
    }
    ok, v := DecValue(s, f.ltype, InitValue(f), false, mem, pData, f.place.dataSize);
    GrewMore(old(mem.Log), log, mem.Log, p, q, p, p);
  }

  // -- Messages ---------------------------------------------------------------------------

  lemma {:induction false} RequiredMonotone(d: Descriptor, i: nat, j: nat)
    requires i <= j <= |d.fields|
    ensures RequiredBefore(d, i) <= RequiredBefore(d, j)
  {
    if i < j {
      RequiredMonotone(d, i, j - 1);
    }
  }

  /** Only required fields that exist are ever marked. */
  predicate SeenBelow(d: Descriptor, seen: set<nat>) {
    forall k :: k in seen ==> k < RequiredBefore(d, |d.fields|)
  }

  /** "fields_seen[i >> 5] |= tmp", for a required field the bitmap covers. */
  method MarkField(iter: FieldIter, fieldsSeen: RequiredBits)
    requires iter.Valid() && iter.d.fields != [] && fieldsSeen.Valid()
    requires SeenBelow(iter.d, fieldsSeen.Seen())
    modifies fieldsSeen.words
    ensures fieldsSeen.Valid() && SeenBelow(iter.d, fieldsSeen.Seen())
    ensures fieldsSeen.Seen() == MarkSeen(iter.d, iter.pos, old(fieldsSeen.Seen()))
  {
    if iter.d.fields[iter.pos].htype.Required? && iter.requiredFieldIndex < MAX_REQUIRED {
      RequiredMonotone(iter.d, iter.pos + 1, |iter.d.fields|);
      fieldsSeen.Mark(iter.requiredFieldIndex);
    }
  }

  /** What one turn of the loop of pb_decode_noinit does next. */
  datatype Next = Fail | Break | Again

  /** One turn of the loop of pb_decode_noinit. */
  method DecodeTurn(s: IStream, iter: FieldIter, fieldsSeen: RequiredBits, dest: Message, mem: Dest, base: int,
      size: nat)
    returns (next: Next, m: Message)
    requires s.Valid() && s.bytesLeft > 0 && iter.Valid() && fieldsSeen.Valid()
    requires WellFormed(iter.d) && |dest.slots| == iter.d.slots && Points(iter, size)
    requires SeenBelow(iter.d, fieldsSeen.Seen())
    modifies s, iter, fieldsSeen.words, mem
    ensures s.Valid() && iter.Valid() && fieldsSeen.Valid() && |m.slots| == iter.d.slots
    ensures Points(iter, size) && Grew(old(mem.Log), mem.Log, Entry(base, size), Entry(base, size))
    ensures SeenBelow(iter.d, fieldsSeen.Seen())
    ensures next != Fail ==> s.End() == old(s.End())
    ensures TurnOf(iter.d, dest, old(fieldsSeen.Seen()), old(s.Rest())) ==
            if next == Fail then Failed
            else if next == Break then Stop(s.Rest()) else Continue(m, fieldsSeen.Seen(), s.Rest())
    ensures next == Break ==> m == dest && fieldsSeen.Seen() == old(fieldsSeen.Seen())
    decreases s.bytesLeft, 2
  {
    hide TaggedTurn;
    m := dest;
    var got, tag, wt, eof := s.DecodeTag();
    if !got {
      return if eof then Break else Fail, m;
    }
    var decoded;
    decoded, m := DecodeTagged(s, iter, fieldsSeen, tag, wt, dest, mem, base, size);
    next := if decoded then Again else Fail;
  }

  /** A turn after its tag. */
  method DecodeTagged(s: IStream, iter: FieldIter, fieldsSeen: RequiredBits, tag: nat, wt: nat, dest: Message,
                      mem: Dest, base: int, size: nat)
    returns (ok: bool, m: Message)
    requires s.Valid() && iter.Valid() && fieldsSeen.Valid()
    requires WellFormed(iter.d) && |dest.slots| == iter.d.slots && Points(iter, size)
    requires SeenBelow(iter.d, fieldsSeen.Seen())
    modifies s, iter, fieldsSeen.words, mem
    ensures s.Valid() && iter.Valid() && fieldsSeen.Valid() && |m.slots| == iter.d.slots
    ensures Points(iter, size) && Grew(old(mem.Log), mem.Log, Entry(base, size), Entry(base, size))
    ensures SeenBelow(iter.d, fieldsSeen.Seen())
    ensures ok ==> s.End() == old(s.End())
    ensures TaggedTurn(iter.d, dest, old(fieldsSeen.Seen()), tag, wt, old(s.Rest())) ==
            if ok then Continue(m, fieldsSeen.Seen(), s.Rest()) else Failed
    decreases s.bytesLeft, 9
  {
    hide DecodeField, Points, Stores, DataPlace, SizePlace, Grew, RequiredBefore;
    GrewNot(mem.Log, Entry(base, size));
    m := dest;
    var d := iter.d;
    var found := FindIn(iter, tag, size);
    if !found {
      ok := s.SkipField(wt);
      return;
    }
    if d.fields == [] {
      // The terminator row: "invalid data_size".
      return false, m;
    }
    assert FieldOk(d.fields[iter.pos]);
    ok, m := DecodeFound(s, iter, fieldsSeen, wt, dest, mem, base, size);
    PointsInside(iter, size, base);
    GrewMore(old(mem.Log), old(mem.Log), mem.Log, Entry(base, size), Entry(base, size),
             DataPlace(d.fields[iter.pos], base + iter.pData), SizePlace(d.fields[iter.pos], base + iter.pData));
  }

  /** pb_field_iter_find keeps the pointers in place. */
  method FindIn(iter: FieldIter, tag: nat, ghost size: nat) returns (found: bool)
    requires iter.Valid() && WellFormed(iter.d) && Points(iter, size)
    modifies iter
    ensures iter.Valid() && Points(iter, size)
    ensures found <==> (iter.d.fields == [] && tag == 0) || Find(iter.d, tag).Some?
    ensures found && iter.d.fields != [] ==> Find(iter.d, tag) == Some(iter.pos)
  {
    hide Struct, WellFormed, FieldOk;
    Laid(iter.d, size);
    found := iter.Find(tag);
  }

  /** The rest of a turn, on the field the iterator found. */
  method DecodeFound(s: IStream, iter: FieldIter, fieldsSeen: RequiredBits, wt: nat, dest: Message,
                     mem: Dest, base: int, size: nat)
    returns (ok: bool, m: Message)
    requires s.Valid() && iter.Valid() && fieldsSeen.Valid()
    requires WellFormed(iter.d) && iter.d.fields != [] && |dest.slots| == iter.d.slots && Points(iter, size)
    requires FieldOk(iter.d.fields[iter.pos]) && SeenBelow(iter.d, fieldsSeen.Seen())
    modifies s, fieldsSeen.words, mem
    ensures var f := iter.d.fields[iter.pos];
            Grew(old(mem.Log), mem.Log, DataPlace(f, base + iter.pData), SizePlace(f, base + iter.pData))
    ensures s.Valid() && fieldsSeen.Valid() && |m.slots| == iter.d.slots
    ensures SeenBelow(iter.d, fieldsSeen.Seen())
    ensures fieldsSeen.Seen() == MarkSeen(iter.d, iter.pos, old(fieldsSeen.Seen()))
    ensures match DecodeField(iter.d.fields[iter.pos], dest.slots[iter.d.fields[iter.pos].slot], wt, old(s.Rest()))
            case None => !ok
            case Some(p) =>
              && ok && m == With(iter.d, dest, iter.pos, p.val)
              && s.Rest() == p.rest && s.End() == old(s.End())
    decreases s.bytesLeft, 8
  {
    hide DecodeField, MarkSeen, Stores, Struct, LaidOut, DataPlace, SizePlace, RequiredBefore;
    m := dest;
    MarkField(iter, fieldsSeen);
    PointsInside(iter, size, base);
    var f := iter.d.fields[iter.pos];
    var slot;
    ok, slot := DecField(s, wt, f, dest.slots[f.slot], mem, base + iter.pData, base + iter.pSize);
    if ok {
      m := With(iter.d, dest, iter.pos, slot);
    }
  }

  /** The loop of pb_decode_noinit. */
  method DecodeFields(s: IStream, iter: FieldIter, fieldsSeen: RequiredBits, dest: Message, mem: Dest, base: int,
      size: nat)
    returns (ok: bool, m: Message)
    requires s.Valid() && iter.Valid() && fieldsSeen.Valid()
    requires WellFormed(iter.d) && |dest.slots| == iter.d.slots && Points(iter, size)
    requires SeenBelow(iter.d, fieldsSeen.Seen())
    modifies s, iter, fieldsSeen.words, mem
    ensures s.Valid() && iter.Valid() && fieldsSeen.Valid() && |m.slots| == iter.d.slots
    ensures Points(iter, size) && Grew(old(mem.Log), mem.Log, Entry(base, size), Entry(base, size))
    ensures SeenBelow(iter.d, fieldsSeen.Seen())
    ensures match DecodeLoop(iter.d, dest, old(fieldsSeen.Seen()), old(s.Rest()))
            case None => !ok
            case Some(l) =>
              && ok && m == l.m && fieldsSeen.Seen() == l.seen
              && s.Rest() == l.rest && s.End() == old(s.End())
    decreases s.bytesLeft, 3
  {
    hide DecodeLoop, TurnOf, Points, Grew, WellFormed, SeenBelow, MarkSeen, RequiredBefore;
    m := dest;
    GrewNot(mem.Log, Entry(base, size));
    ghost var meaning := DecodeLoop(iter.d, dest, fieldsSeen.Seen(), s.Rest());
    while s.bytesLeft > 0
      invariant s.Valid() && s.End() == old(s.End()) && s.bytesLeft <= old(s.bytesLeft)
      invariant iter.Valid() && fieldsSeen.Valid() && |m.slots| == iter.d.slots
      invariant SeenBelow(iter.d, fieldsSeen.Seen())
      invariant DecodeLoop(iter.d, m, fieldsSeen.Seen(), s.Rest()) == meaning
      invariant Points(iter, size) && Grew(old(mem.Log), mem.Log, Entry(base, size), Entry(base, size))
      decreases s.bytesLeft
    {
      LoopTurn(iter.d, m, fieldsSeen.Seen(), s.Rest());
      ghost var log := mem.Log;
      var next;
      next, m := DecodeTurn(s, iter, fieldsSeen, m, mem, base, size);
      GrewMore(old(mem.Log), log, mem.Log, Entry(base, size), Entry(base, size), Entry(base, size), Entry(base, size));
      if next == Fail {
        return false, m;
      }
      if next == Break {
        return true, m;
      }
    }
    LoopEnds(iter.d, m, fieldsSeen.Seen());
    assert s.Rest() == [];
    ok := true;
  }

  lemma LoopEnds(d: Descriptor, m: Message, seen: set<nat>)
    requires WellFormed(d) && |m.slots| == d.slots
    ensures DecodeLoop(d, m, seen, []) == Some(Loop(m, seen, [], false))
  {
  }

  /** pb_decode_noinit, into the struct at `base`: on every input, and whether it
      succeeds or not, it writes inside that struct only. */
  method PbDecodeNoinit(s: IStream, d: Descriptor, dest: Message, mem: Dest, base: int, size: nat)
      returns (ok: bool, m: Message)
    requires s.Valid() && WellFormed(d) && |dest.slots| == d.slots && Struct(d, size)
    modifies s, mem
    ensures s.Valid() && |m.slots| == d.slots
    ensures Grew(old(mem.Log), mem.Log, Entry(base, size), Entry(base, size))
    ensures match DecodeNoinit(d, dest, old(s.Rest()))
            case None => !ok
            case Some(l) => ok && m == l.m && s.Rest() == l.rest && s.End() == old(s.End())
    decreases s.bytesLeft, 4
  {
    hide Struct, Stores, Grew, LaidOut, Offsets, DecodeLoop, DecodeNoinit, RequiredBefore, WellFormed, AllSeen;
    var iter := new FieldIter(d, SIZE_MAX);
    Laid(d, size);
    var fieldsSeen := new RequiredBits();
    ghost var bs := s.Rest();
    ghost var l := DecodeLoop(d, dest, {}, bs);
    ok, m := DecodeFields(s, iter, fieldsSeen, dest, mem, base, size);
    NoinitIs(d, dest, bs, l);
    if ok {
      ok := CheckRequired(d, iter, fieldsSeen);
    }
  }

  lemma NoinitIs(d: Descriptor, m: Message, bs: seq<byte>, l: Option<Loop>)
    requires WellFormed(d) && |m.slots| == d.slots && l == DecodeLoop(d, m, {}, bs)
    ensures DecodeNoinit(d, m, bs) == if l.Some? && AllSeen(d, l.value.seen) then l else None
  {
  }

  /** "Check that all required fields were present." */
  method CheckRequired(d: Descriptor, iter: FieldIter, fieldsSeen: RequiredBits) returns (ok: bool)
    requires iter.Valid() && iter.d == d && WellFormed(d) && fieldsSeen.Valid()
    requires SeenBelow(d, fieldsSeen.Seen())
    modifies iter
    ensures ok <==> AllSeen(d, fieldsSeen.Seen())
  {
    var count := iter.requiredFieldIndex;
    var lastRequired := d.fields == [] || d.fields[iter.pos].htype.Required?;
    ghost var at := iter.pos;
    while true
      invariant iter.Valid() && at == iter.pos && count == RequiredBefore(d, at)
      invariant lastRequired == (d.fields == [] || d.fields[at].htype.Required?)
      decreases |d.fields| - at
    {
      var more := iter.Next();
      if !more {
        break;
      }
      count := iter.requiredFieldIndex;
      lastRequired := d.fields[iter.pos].htype.Required?;
      at := iter.pos;
    }
    if lastRequired && d.fields != [] {
      count := count + 1;
    }
    assert count == RequiredBefore(d, |d.fields|);
    ok := fieldsSeen.Complete(count);
  }

  /** pb_decode. */
  method PbDecode(s: IStream, d: Descriptor, mem: Dest, base: int, size: nat) returns (ok: bool, m: Message)
    requires s.Valid() && WellFormed(d) && Struct(d, size)
    modifies s, mem
    ensures s.Valid()
    ensures Grew(old(mem.Log), mem.Log, Entry(base, size), Entry(base, size))
    ensures match Decode(d, old(s.Rest()))
            case None => !ok
            case Some(l) => ok && m == l.m && MessageOk(d, m, true) && s.Rest() == l.rest && s.End() == old(s.End())
  {
    m := SetToDefaults(d, mem, base, size);
    ghost var log := mem.Log;
    ok, m := PbDecodeNoinit(s, d, m, mem, base, size);
    GrewMore(old(mem.Log), log, mem.Log, Entry(base, size), Entry(base, size), Entry(base, size), Entry(base, size));
    if ok {
      DecodeStored(d, old(s.Rest()));
    }
  }

  /** pb_decode_delimited: on success the stream is at the end of the frame. */
  method PbDecodeDelimited(s: IStream, d: Descriptor, mem: Dest, base: int, size: nat) returns (ok: bool, m: Message)
    requires s.Valid() && WellFormed(d) && Struct(d, size)
    modifies s, mem
    ensures s.Valid()
    ensures Grew(old(mem.Log), mem.Log, Entry(base, size), Entry(base, size))
    ensures match DecodeDelimited(d, old(s.Rest()))
            case None => !ok
            case Some(p) => ok && m == p.val && s.Rest() == p.rest && s.End() == old(s.End())
  {
    hide Struct, Grew, DecodeNoinit, Defaults, WellFormed, MessageOk, LaidOut, RequiredBefore;
    GrewNot(mem.Log, Entry(base, size));
    m := Defaults(d);
    var sub, status;
    ok, sub := s.MakeSubstream();
    if !ok {
      return;
    }
    ghost var after, end, left := s.buf[sub.End()..old(s.End())], sub.End(), s.bytesLeft;
    status, m := PbDecode(sub, d, mem, base, size);
    if !status {
      return false, m;
    }
    assert s.bytesLeft == left && sub.End() == end;
    ok := s.CloseSubstream(sub);
    assert s.state == end && s.state + s.bytesLeft == old(s.End());
    assert s.Rest() == after;
  }
}
