/** Which bytes each field decoder accepts, and as which value, with every bound written out. */
module PbValues {
  import opened Bytes
  import opened Options
  import opened Varint
  import opened PbLaws
  import opened PbModel
  import opened PbRoundTrip
  import opened PbWire

  // -- Numbers ---------------------------------------------------------------------------------

  /** A signed or unsigned C integer of `size` bytes holds `i`. */
  predicate Holds(signed: bool, size: nat, i: int) {
    match size
    case 1 => if signed then -0x80 <= i < 0x80 else 0 <= i < 0x100
    case 2 => if signed then -0x8000 <= i < 0x8000 else 0 <= i < 0x1_0000
    case 4 => if signed then -0x8000_0000 <= i < 0x8000_0000 else 0 <= i < 0x1_0000_0000
    case 8 => if signed then -0x8000_0000_0000_0000 <= i < 0x8000_0000_0000_0000
              else 0 <= i < 0x1_0000_0000_0000_0000
    case _ => false
  }

  function Taken(ok: bool, i: int, te: seq<byte>): Option<Parsed<Value>> {
    if ok then Some(Parsed(IntV(i), te)) else None
  }

  lemma UnsignedExactly(size: nat, p: seq<byte>, te: seq<byte>)
    requires (size == 1 || size == 2 || size == 4 || size == 8) && IsVarint(p) && |p| <= 10
    ensures var u := GroupValue(p) % TWO64; DecodeInt(LUvarint(size), p + te) == Taken(Holds(false, size, u), u, te)
  {
    Varint64Whole(p, te);
  }

  /** int32 and shorter: the low 32 bits of the varint, read as two's complement.  So a
      negative number is taken with its sign extended, in ten bytes, or without, in five. */
  lemma SignedExactly(size: nat, p: seq<byte>, x: int, q: int, te: seq<byte>)
    requires (size == 1 || size == 2 || size == 4) && IsVarint(p) && |p| <= 10
    requires GroupValue(p) % TWO64 == x + TWO32 * q && -TWO31 <= x < TWO31
    ensures DecodeInt(LVarint(size), p + te) == Taken(Holds(true, size, x), x, te)
  {
    var u := GroupValue(p) % TWO64;
    Varint64Whole(p, te);
    hide GroupValue, Varint64, IsVarint, SignedOf;
    LowWord(size, u, x, q);
    assert DecodeInt(LVarint(size), p + te) == Taken(InSigned(x, size), x, te);
  }

  lemma LowWord(size: nat, u: nat, x: int, q: int)
    requires size != 8 && u < TWO64 && u == x + TWO32 * q && -TWO31 <= x < TWO31
    ensures SignedOf(u, size) == x
  {
    assert u % TWO32 == if x < 0 then TWO32 + x else x;
  }

  lemma FiveBytes(size: nat, x: int, te: seq<byte>)
    requires (size == 1 || size == 2 || size == 4) && -TWO31 <= x < 0
    ensures |VarintBytes(TWO32 + x)| == 5
    ensures DecodeInt(LVarint(size), VarintBytes(TWO32 + x) + te) == Taken(Holds(true, size, x), x, te)
  {
    hide VarintBytes, GroupValue, DecodeInt, Shift7, IsVarint;
    assert |VarintBytes(TWO32 + x)| == 5 by {
      Shift7Values(1);
      VarintBytesLength(TWO32 + x, 5);
      VarintBytesLength(TWO32 + x, 4);
    }
    GroupValueOfVarintBytes(TWO32 + x);
    SignedExactly(size, VarintBytes(TWO32 + x), x, 1, te);
  }

  lemma Signed64Exactly(p: seq<byte>, x: int, te: seq<byte>)
    requires IsVarint(p) && |p| <= 10 && -TWO63 <= x < TWO63
    requires GroupValue(p) % TWO64 == if x < 0 then TWO64 + x else x
    ensures DecodeInt(LVarint(8), p + te) == Some(Parsed(IntV(x), te))
  {
    Varint64Whole(p, te);
  }

  lemma ZigZagExactly(size: nat, p: seq<byte>, x: int, te: seq<byte>)
    requires (size == 1 || size == 2 || size == 4 || size == 8) && IsVarint(p) && |p| <= 10
    requires GroupValue(p) % TWO64 == if x < 0 then -2 * x - 1 else 2 * x
    ensures DecodeInt(LSvarint(size), p + te) == Taken(Holds(true, size, x), x, te)
  {
    var u := GroupValue(p) % TWO64;
    Varint64Whole(p, te);
    hide GroupValue, Varint64, IsVarint, UnZigZag;
    Unfolded(u, x);
    assert DecodeInt(LSvarint(size), p + te) == Taken(InSigned(x, size), x, te);
  }

  lemma Unfolded(u: nat, x: int)
    requires u < TWO64 && u == if x < 0 then -2 * x - 1 else 2 * x
    ensures UnZigZag(u) == x
  {
  }

  /** No varint in front, none of at most ten bytes: refused. */
  lemma NoVarintRefused(lt: LType, bs: seq<byte>)
    requires (lt.LVarint? || lt.LUvarint? || lt.LSvarint?) && LTypeOk(lt)
    requires forall n :: 1 <= n <= 10 && n <= |bs| ==> !IsVarint(bs[..n])
    ensures DecodeInt(lt, bs) == None
  {
    if Varint64(bs).Some? {
      VarintInFront(bs);
    }
  }

  lemma VarintInFront(bs: seq<byte>)
    requires Varint64(bs).Some?
    ensures exists n :: 1 <= n <= 10 && n <= |bs| && IsVarint(bs[..n])
  {
    var p := Varint64Consumes(0, 0, bs);
    assert bs[..|p|] == p;
  }

  /** Four bytes, the lowest first. */
  function Word(bs: seq<byte>): nat
    requires |bs| >= 4
  {
    var b0: int, b1: int, b2: int, b3: int := bs[0], bs[1], bs[2], bs[3];
    b0 + 0x100 * b1 + 0x1_0000 * b2 + 0x100_0000 * b3
  }

  lemma FixedWord(p: seq<byte>)
    requires |p| >= 4
    ensures FixedValue(p) == Word(p) + TWO32 * FixedValue(p[4..])
  {
    assert FixedValue(p) == p[0] + 256 * FixedValue(p[1..]);
    assert FixedValue(p[1..]) == p[1] + 256 * FixedValue(p[2..]) by { assert p[1..][1..] == p[2..]; }
    assert FixedValue(p[2..]) == p[2] + 256 * FixedValue(p[3..]) by { assert p[2..][1..] == p[3..]; }
    assert FixedValue(p[3..]) == p[3] + 256 * FixedValue(p[4..]) by { assert p[3..][1..] == p[4..]; }
  }

  lemma FixedExactly(bs: seq<byte>)
    ensures DecodeInt(LFixed32, bs) == if |bs| < 4 then None else Some(Parsed(IntV(Word(bs)), bs[4..]))
    ensures DecodeInt(LFixed64, bs) ==
            if |bs| < 8 then None else Some(Parsed(IntV(Word(bs) + TWO32 * Word(bs[4..])), bs[8..]))
  {
    if |bs| >= 4 {
      FixedWord(bs[..4]);
      assert bs[..4][4..] == [];
    }
    if |bs| >= 8 {
      FixedWord(bs[..8]);
      FixedWord(bs[..8][4..]);
      assert bs[..8][4..][4..] == [];
    }
  }

  // -- Strings and bytes -------------------------------------------------------------------------

  /** What becomes of a string of `b` bytes: a byte field takes up to its capacity, a string
      is cut at its first NUL and leaves room for one, and a fixed-length field takes its
      own length or nothing, which stands for zeros. */
  predicate Becomes(lt: LType, b: seq<byte>, r: Option<Value>) {
    match lt
    case LBytes(cap) => r == if |b| <= cap then Some(BytesV(b)) else None
    case LString(size) =>
      if |b| >= size then r == None
      else r.Some? && r.value.BytesV? && CutAtNul(b, r.value.b)
    case LFixedBytes(size) =>
      if |b| == size then r == Some(BytesV(b))
      else if b == [] then r.Some? && r.value.BytesV? && AllZero(r.value.b, size)
      else r == None
    case _ => false
  }

  predicate CutAtNul(b: seq<byte>, r: seq<byte>) {
    r <= b && NoZero(r) && (|r| < |b| ==> b[|r|] == 0)
  }

  predicate AllZero(r: seq<byte>, size: nat) {
    |r| == size && forall k :: 0 <= k < size ==> r[k] == 0
  }

  lemma {:induction false} UpToNulCuts(b: seq<byte>)
    ensures CutAtNul(b, UpToNul(b))
  {
    if b != [] && b[0] != 0 {
      UpToNulCuts(b[1..]);
      var r := UpToNul(b[1..]);
      assert UpToNul(b) == [b[0]] + r;
      assert forall k :: 0 <= k < |r| ==> b[1..][k] == b[k + 1];
    }
  }

  lemma BytesExactly(lt: LType, b: seq<byte>, te: seq<byte>) returns (r: Option<Value>)
    requires (lt.LBytes? || lt.LString? || lt.LFixedBytes?) && |b| < TWO32
    ensures Becomes(lt, b, r)
    ensures DecodeBytes(lt, Prefixed(b) + te) == if r.Some? then Some(Parsed(r.value, te)) else None
  {
    assert Prefixed(b) + te == VarintBytes(|b|) + (b + te);
    Varint32RoundTrip(|b|, b + te);
    TakeBack(b, te);
    UpToNulCuts(b);
    var d := DecodeBytes(lt, Prefixed(b) + te);
    r := if d.Some? then Some(d.value.val) else None;
    if b == [] {
      assert b + te == te;
    }
  }

  /** A length with less than that behind it. */
  lemma ShortRefused(lt: LType, n: nat, te: seq<byte>)
    requires (lt.LBytes? || lt.LString? || lt.LFixedBytes?) && |te| < n < TWO32
    ensures DecodeBytes(lt, VarintBytes(n) + te) == None
  {
    Varint32RoundTrip(n, te);
  }

  /** A string that fills its storage, with no room for a NUL, is written but not read. */
  lemma FullString(b: seq<byte>, te: seq<byte>)
    requires |b| < TWO32 && NoZero(b)
    ensures EncodeValue(LString(|b|), BytesV(b)) == Some(Prefixed(b))
    ensures DecodeBytes(LString(|b|), Prefixed(b) + te) == None
  {
    var r := BytesExactly(LString(|b|), b, te);
  }

  // -- Arrays ----------------------------------------------------------------------------------------

  /** A packed array with more items than there is room for is refused. */
  lemma {:induction false} PackedOverflow(lt: LType, maxCount: nat, got: seq<Value>, vs: seq<Value>, e: seq<byte>)
    requires Packable(lt) && LTypeOk(lt) && |got| <= maxCount < |got| + |vs|
    requires EncodeItems(lt, vs) == Some(e)
    ensures DecodePacked(lt, maxCount, got, e) == None
    decreases |vs|
  {
    var h, t := ItemsCons(lt, vs, e);
    IntRoundTrip(lt, vs[0], h, t);
    assert e != [];
    if |got| < maxCount {
      PackedStep(lt, maxCount, got, vs[0], h + t, t);
      PackedOverflow(lt, maxCount, got + [vs[0]], vs[1..], t);
    }
  }

  /** So is one with an item that cannot be read. */
  lemma {:induction false} PackedBroken(lt: LType, maxCount: nat, got: seq<Value>, vs: seq<Value>, e: seq<byte>,
                          bad: seq<byte>)
    requires Packable(lt) && LTypeOk(lt) && EncodeItems(lt, vs) == Some(e) && bad != [] && DecodeInt(lt, bad) == None
    ensures DecodePacked(lt, maxCount, got, e + bad) == None
    decreases |vs|
  {
    if vs == [] {
      assert e + bad == bad;
    } else {
      var h, t := ItemsCons(lt, vs, e);
      IntRoundTrip(lt, vs[0], h, t + bad);
      assert e + bad == h + (t + bad);
      if |got| < maxCount {
        PackedStep(lt, maxCount, got, vs[0], h + (t + bad), t + bad);
        PackedBroken(lt, maxCount, got + [vs[0]], vs[1..], t, bad);
      }
    }
  }

  /** An array field, item by item: refused when full, added to otherwise, and packable
      types are read this way too unless the key says that they come packed. */
  lemma ItemExactly(f: Field, vs: seq<Value>, wt: nat, bs: seq<byte>)
    requires FieldOk(f) && f.htype.Repeated? && !(wt == 2 && Packable(f.ltype))
    ensures |vs| >= f.htype.maxCount ==> DecodeField(f, Many(vs), wt, bs) == None
    ensures |vs| < f.htype.maxCount ==>
              assert LTypeOk(f.ltype);
              match DecodeValue(f.ltype, InitValue(f), bs)
              case None => DecodeField(f, Many(vs), wt, bs) == None
              case Some(p) => DecodeField(f, Many(vs), wt, bs) == Some(Parsed(Many(vs + [p.val]), p.rest))
  {
    assert LTypeOk(f.ltype);
  }

  /** Elsewhere the wire type does not matter. */
  lemma WireTypeIgnored(f: Field, s: Slot, wt: nat, wt': nat, bs: seq<byte>)
    requires FieldOk(f) && !(f.htype.Repeated? && Packable(f.ltype))
    ensures DecodeField(f, s, wt, bs) == DecodeField(f, s, wt', bs)
  {
  }

  // -- Writing -----------------------------------------------------------------------------------------

  /** What pb_encode refuses: more items than the field may hold, more bytes than its storage. */
  lemma WriterRefuses(f: Field, s: Slot)
    ensures f.htype.Repeated? && s.Many? && |s.vs| > f.htype.maxCount ==> EncodeField(f, s) == None
    ensures f.htype.Required? && s.Plain? && f.ltype.LBytes? && s.v.BytesV? && |s.v.b| > f.ltype.cap ==>
              EncodeField(f, s) == None
  {
    if f.htype.Repeated? && s.Many? && |s.vs| > f.htype.maxCount {
      assert EncodeArray(f.tag, f.ltype, f.htype.maxCount, s.vs) == None;
    } else if f.htype.Required? && s.Plain? && f.ltype.LBytes? && s.v.BytesV? && |s.v.b| > f.ltype.cap {
      assert EncodeValue(f.ltype, s.v) == None;
    }
  }

  /** One field that cannot be written spoils the message. */
  lemma {:induction false} FieldSpoils(d: Descriptor, m: Message, i: nat, j: nat)
    requires WellFormed(d) && |m.slots| == d.slots && i <= j < |d.fields|
    requires EncodeField(d.fields[j], m.slots[d.fields[j].slot]) == None
    ensures EncodeFrom(d, m, i) == None
    decreases j - i
  {
    if i < j {
      FieldSpoils(d, m, i + 1, j);
    }
  }
}
