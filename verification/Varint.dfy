/** Base-128 varints, zigzag and fixed-width integers: the wire primitives of
    nanopb's pb_encode.c and pb_decode.c.

    A byte is an integer 0..255, so `b & 0x7F` is `b % 128` and `b & 0x80` is
    `b >= 128`.  The decoders or seven fresh bits above the bits read so far;
    those bits are disjoint, so the `|=` of the source is an addition here. */
module Varint {
  import opened Bytes
  import opened Options

  /** A value read from the front of a byte string, and the bytes left unread. */
  datatype Parsed<+T> = Parsed(val: T, rest: seq<byte>)

  /** `x << (7 * k)`, before any truncation. */
  function Shift7(x: nat, k: nat): (r: nat)
    ensures r >= x
  {
    if k == 0 then x else 128 * Shift7(x, k - 1)
  }

  // -- Reference meaning ---------------------------------------------------

  /** The number a group of varint bytes stands for: little-endian base 128. */
  function GroupValue(p: seq<byte>): nat {
    if p == [] then 0 else p[0] % 128 + 128 * GroupValue(p[1..])
  }

  /** A complete varint: continuation bit on every byte but the last. */
  predicate IsVarint(p: seq<byte>) {
    |p| >= 1 && p[|p| - 1] < 128 && forall i :: 0 <= i < |p| - 1 ==> p[i] >= 128
  }

  // -- Encoding ------------------------------------------------------------

  /** pb_encode_varint. */
  function VarintBytes(v: nat): (p: seq<byte>)
    ensures IsVarint(p)
  {
    if v < 128 then [v]
    else
      var tail := VarintBytes(v / 128);
      var p: seq<byte> := [128 + v % 128] + tail;
      assert forall i :: 0 < i < |p| ==> p[i] == tail[i - 1];
      p
  }

  // -- Decoding ------------------------------------------------------------

  /** pb_decode_varint after `k` bytes, which amounted to `acc`. */
  function Varint64From(bs: seq<byte>, k: nat, acc: nat): (r: Option<Parsed<nat>>)
    ensures r.Some? ==> |r.value.rest| < |bs|
    ensures r.Some? ==> r.value.val < TWO64
    decreases |bs|
  {
    if 7 * k >= 64 || bs == [] then None
    else
      var acc' := (acc + Shift7(bs[0] % 128, k)) % TWO64;
      if bs[0] < 128 then Some(Parsed(acc', bs[1..])) else Varint64From(bs[1..], k + 1, acc')
  }

  function Varint64(bs: seq<byte>): (r: Option<Parsed<nat>>)
    ensures r.Some? ==> |r.value.rest| < |bs| && r.value.val < TWO64
  {
    Varint64From(bs, 0, 0)
  }

  /** The byte a negative int32 continues with at bit position 7 * k. */
  function SignExtension(k: nat): byte {
    if 7 * k < 63 then 0xFF else 0x01
  }

  /** The loop body of pb_decode_varint32_eof rejects byte `b` at position 7 * k. */
  predicate Overflows32(acc: nat, k: nat, b: byte) {
    7 * k >= 32 && b % 128 != 0 && (acc < TWO31 || b != SignExtension(k))
  }

  function Accumulate32(acc: nat, k: nat, b: byte): (r: nat)
    requires acc < TWO32
    ensures r < TWO32
  {
    if 7 * k >= 32 then acc else (acc + Shift7(b % 128, k)) % TWO32
  }

  /** pb_decode_varint32_eof after `k` bytes, which amounted to `acc`. */
  function Varint32From(bs: seq<byte>, k: nat, acc: nat): (r: Option<Parsed<nat>>)
    requires acc < TWO32
    ensures r.Some? ==> |r.value.rest| < |bs|
    ensures r.Some? ==> r.value.val < TWO32
    decreases |bs|
  {
    if bs == [] || Overflows32(acc, k, bs[0]) then None
    else
      var acc' := Accumulate32(acc, k, bs[0]);
      if bs[0] >= 128 then Varint32From(bs[1..], k + 1, acc')
      else if k == 4 && bs[0] / 16 != 0 then None
      else Some(Parsed(acc', bs[1..]))
  }

  function Varint32(bs: seq<byte>): (r: Option<Parsed<nat>>)
    ensures r.Some? ==> |r.value.rest| < |bs|
    ensures r.Some? ==> r.value.val < TWO32
  {
    Varint32From(bs, 0, 0)
  }

  // -- Powers and group values ----------------------------------------------

  lemma Shift7Values(x: nat)
    ensures Shift7(x, 0) == x && Shift7(x, 1) == 0x80 * x && Shift7(x, 2) == 0x4000 * x
    ensures Shift7(x, 3) == 0x20_0000 * x && Shift7(x, 4) == 0x1000_0000 * x
    ensures Shift7(x, 5) == 0x8_0000_0000 * x && Shift7(x, 10) == 128 * TWO63 * x
  {
    assert Shift7(x, 2) == 128 * Shift7(x, 1);
    assert Shift7(x, 4) == 128 * Shift7(x, 3) == 0x4000 * Shift7(x, 2);
    assert Shift7(x, 6) == 128 * Shift7(x, 5) == 0x4000 * Shift7(x, 4);
    assert Shift7(x, 8) == 128 * Shift7(x, 7) == 0x4000 * Shift7(x, 6);
    assert Shift7(x, 10) == 128 * Shift7(x, 9) == 0x4000 * Shift7(x, 8);
  }

  lemma {:induction false} GroupValueAppend(p: seq<byte>, b: byte)
    ensures GroupValue(p + [b]) == GroupValue(p) + Shift7(b % 128, |p|)
    ensures GroupValue(p) < Shift7(1, |p|)
  {
    if p == [] {
      assert p + [b] == [b];
      assert GroupValue([b]) == [b][0] % 128 + 128 * GroupValue([b][1..]);
    } else {
      assert (p + [b])[1..] == p[1..] + [b];
      GroupValueAppend(p[1..], b);
    }
  }

  lemma {:induction false} GroupValueOfVarintBytes(v: nat)
    ensures GroupValue(VarintBytes(v)) == v
  {
    if v >= 128 {
      GroupValueOfVarintBytes(v / 128);
      assert VarintBytes(v)[1..] == VarintBytes(v / 128);
    }
  }

  lemma {:induction false} VarintBytesLength(v: nat, n: nat)
    requires n >= 1
    ensures v < Shift7(1, n) <==> |VarintBytes(v)| <= n
  {
    if v < 128 {
      assert Shift7(1, n) == 128 * Shift7(1, n - 1);
    } else if n == 1 {
      assert |VarintBytes(v)| == 1 + |VarintBytes(v / 128)|;
    } else {
      VarintBytesLength(v / 128, n - 1);
      assert |VarintBytes(v)| == 1 + |VarintBytes(v / 128)|;
      assert v < 128 * Shift7(1, n - 1) <==> v / 128 < Shift7(1, n - 1);
    }
  }

  /** Digit `i` to the base 128, from the lowest. */
  function Group(v: nat, i: nat): nat {
    if i == 0 then v % 128 else Group(v / 128, i - 1)
  }

  /** Each byte holds seven bits, the lowest first. */
  lemma {:induction false} VarintDigits(v: nat, i: nat)
    requires i < |VarintBytes(v)|
    ensures VarintBytes(v)[i] % 128 == Group(v, i)
  {
    if i > 0 {
      VarintDigits(v / 128, i - 1);
      assert VarintBytes(v)[i] == VarintBytes(v / 128)[i - 1];
    }
  }

  // -- One byte at a time ------------------------------------------------------

  lemma Varint64Step(b: byte, rest: seq<byte>, k: nat, acc: nat)
    requires 7 * k < 64
    ensures var acc' := (acc + Shift7(b % 128, k)) % TWO64;
            Varint64From([b] + rest, k, acc) ==
            if b < 128 then Some(Parsed(acc', rest)) else Varint64From(rest, k + 1, acc')
  {
    assert ([b] + rest)[1..] == rest;
  }

  /** The check after the last byte, `k` bytes in. */
  function Ended32(k: nat, last: byte, acc: nat, rest: seq<byte>): Option<Parsed<nat>> {
    if k == 5 && last / 16 != 0 then None else Some(Parsed(acc, rest))
  }

  lemma Varint32Step(b: byte, rest: seq<byte>, k: nat, acc: nat)
    requires acc < TWO32
    ensures var acc' := Accumulate32(acc, k, b);
            Varint32From([b] + rest, k, acc) ==
            if Overflows32(acc, k, b) then None
            else if b >= 128 then Varint32From(rest, k + 1, acc') else Ended32(k + 1, b, acc', rest)
  {
    hide Overflows32, Accumulate32;
    assert ([b] + rest)[1..] == rest;
  }

  lemma VarintTail(p: seq<byte>)
    requires IsVarint(p)
    ensures p == [p[0]] + p[1..] && (p[0] < 128 <==> |p| == 1)
    ensures |p| > 1 ==> IsVarint(p[1..])
  {
    if |p| > 1 {
      assert p[1..][|p| - 2] == p[|p| - 1];
      assert forall i :: 0 <= i < |p| - 2 ==> p[1..][i] == p[i + 1];
    }
  }

  lemma Regroup(done: seq<byte>, p: seq<byte>, rest: seq<byte>)
    requires p != []
    ensures p + rest == [p[0]] + (p[1..] + rest) && done + p == (done + [p[0]]) + p[1..]
  {
  }

  // -- What the decoders compute ---------------------------------------------

  /** The 64-bit decoder consumes exactly a complete varint and returns its
      group value modulo 2^64, and it accepts every complete varint of at most
      ten bytes whatever follows. */
  lemma {:induction false} Varint64Accepts(done: seq<byte>, acc: nat, p: seq<byte>, rest: seq<byte>)
    requires acc == GroupValue(done) % TWO64 && IsVarint(p) && |done| + |p| <= 10
    ensures Varint64From(p + rest, |done|, acc)
         == Some(Parsed(GroupValue(done + p) % TWO64, rest))
    decreases |p|
  {
    var b := p[0];
    VarintTail(p);
    hide Varint64From, GroupValue, IsVarint;
    Regroup(done, p, rest);
    GroupValueAppend(done, b);
    ModAdd64(GroupValue(done), Shift7(b % 128, |done|));
    Varint64Step(b, p[1..] + rest, |done|, acc);
    if |p| == 1 {
      assert p[1..] + rest == rest && p == [b];
    } else {
      Varint64Accepts(done + [b], GroupValue(done + [b]) % TWO64, p[1..], rest);
    }
  }

  lemma ModAdd64(a: nat, b: nat)
    ensures (a % TWO64 + b) % TWO64 == (a + b) % TWO64
  {
  }

  lemma ModAdd32(a: nat, b: nat)
    ensures (a % TWO32 + b) % TWO32 == (a + b) % TWO32
  {
  }

  lemma ConsVarint(b: byte, tail: seq<byte>)
    requires b >= 128 && IsVarint(tail)
    ensures IsVarint([b] + tail)
  {
    assert forall i :: 0 < i < |[b] + tail| ==> ([b] + tail)[i] == tail[i - 1];
  }

  lemma {:induction false} Varint64Consumes(k: nat, acc: nat, bs: seq<byte>) returns (p: seq<byte>)
    requires Varint64From(bs, k, acc).Some?
    ensures IsVarint(p) && k + |p| <= 10
    ensures bs == p + Varint64From(bs, k, acc).value.rest
    decreases |bs|
  {
    var b, bs', rest := bs[0], bs[1..], Varint64From(bs, k, acc).value.rest;
    var acc' := (acc + Shift7(b % 128, k)) % TWO64;
    assert bs == [b] + bs';
    Varint64Step(b, bs', k, acc);
    if b < 128 {
      p := [b];
    } else {
      hide Varint64From, Shift7;
      var tail := Varint64Consumes(k + 1, acc', bs');
      ConsVarint(b, tail);
      p := [b] + tail;
      assert [b] + (tail + rest) == p + rest;
    }
  }

  /** The 32-bit decoder also consumes exactly a complete varint ... */
  lemma {:induction false} Varint32Consumes(k: nat, acc: nat, bs: seq<byte>) returns (p: seq<byte>)
    requires acc < TWO32 && Varint32From(bs, k, acc).Some?
    ensures IsVarint(p)
    ensures bs == p + Varint32From(bs, k, acc).value.rest
    decreases |bs|
  {
    hide Accumulate32, Overflows32;
    var b, bs', rest := bs[0], bs[1..], Varint32From(bs, k, acc).value.rest;
    var acc' := Accumulate32(acc, k, b);
    assert bs == [b] + bs';
    Varint32Step(b, bs', k, acc);
    if b < 128 {
      p := [b];
    } else {
      hide Varint32From;
      var tail := Varint32Consumes(k + 1, acc', bs');
      ConsVarint(b, tail);
      p := [b] + tail;
      assert [b] + (tail + rest) == p + rest;
    }
  }

  /** ... and returns its group value modulo 2^32. */
  lemma {:induction false} Varint32Value(done: seq<byte>, acc: nat, p: seq<byte>, rest: seq<byte>)
    requires acc == GroupValue(done) % TWO32
    requires IsVarint(p) && Varint32From(p + rest, |done|, acc).Some?
    ensures Varint32From(p + rest, |done|, acc).value.val == GroupValue(done + p) % TWO32
    decreases |p|
  {
    var b := p[0];
    VarintTail(p);
    hide Varint32From, GroupValue, IsVarint, Accumulate32, Overflows32;
    var acc' := Accumulate32(acc, |done|, b);
    Regroup(done, p, rest);
    assert acc' == GroupValue(done + [b]) % TWO32 by {
      GroupValueAppend(done, b);
      AccumulateIsGroup(GroupValue(done), |done|, b);
    }
    Varint32Step(b, p[1..] + rest, |done|, acc);
    if |p| == 1 {
      assert p == [b];
    } else {
      Varint32Value(done + [b], acc', p[1..], rest);
    }
  }

  lemma AccumulateIsGroup(acc: nat, k: nat, b: byte)
    ensures Accumulate32(acc % TWO32, k, b) == (acc + Shift7(b % 128, k)) % TWO32
  {
    ModAdd32(acc, Shift7(b % 128, k));
    if k >= 5 {
      HighGroupsVanish(acc, b % 128, k);
    }
  }

  /** From bit 35 on, groups do not touch the low 32 bits. */
  lemma HighGroupsVanish(acc: nat, x: nat, k: nat)
    requires k >= 5
    ensures (acc + Shift7(x, k)) % TWO32 == acc % TWO32
  {
    hide Shift7;
    var q := ShiftFactor(x, k);
    WholeTurns(acc, q);
  }

  lemma WholeTurns(acc: nat, q: nat)
    ensures (acc + TWO32 * q) % TWO32 == acc % TWO32
  {
  }

  lemma {:induction false} ShiftFactor(x: nat, k: nat) returns (q: nat)
    requires k >= 5
    ensures Shift7(x, k) == TWO32 * q
  {
    if k == 5 {
      Shift7Values(x);
      q := 8 * x;
    } else {
      var q' := ShiftFactor(x, k - 1);
      q := 128 * q';
    }
  }

  // -- Main results ----------------------------------------------------------

  lemma Varint64Whole(p: seq<byte>, rest: seq<byte>)
    requires IsVarint(p) && |p| <= 10
    ensures Varint64(p + rest) == Some(Parsed(GroupValue(p) % TWO64, rest))
  {
    assert [] + p == p;
    Varint64Accepts([], 0, p, rest);
  }

  /** Every uint64 comes back from its encoding, which takes 1 to 10 bytes,
      and whatever follows it is left unread. */
  lemma Varint64RoundTrip(v: nat, rest: seq<byte>)
    requires v < TWO64
    ensures 1 <= |VarintBytes(v)| <= 10
    ensures Varint64(VarintBytes(v) + rest) == Some(Parsed(v, rest))
  {
    assert |VarintBytes(v)| <= 10 by {
      Shift7Values(1);
      VarintBytesLength(v, 10);
    }
    assert GroupValue(VarintBytes(v)) % TWO64 == v by {
      GroupValueOfVarintBytes(v);
      ModSmall(v);
    }
    Varint64Whole(VarintBytes(v), rest);
  }

  lemma ModSmall(v: nat)
    requires v < TWO64
    ensures v % TWO64 == v
  {
  }

  /** Where both decoders accept, they consume the same bytes and agree modulo
      2^32. */
  lemma DecodersAgree(bs: seq<byte>)
    requires Varint64(bs).Some? && Varint32(bs).Some?
    ensures Varint64(bs).value.rest == Varint32(bs).value.rest
    ensures Varint32(bs).value.val == Varint64(bs).value.val % TWO32
  {
    var p := Varint64Consumes(0, 0, bs);
    var q := Varint32Consumes(0, 0, bs);
    VarintsAlign(p, Varint64(bs).value.rest, q, Varint32(bs).value.rest);
    Varint64Whole(p, Varint64(bs).value.rest);
    assert [] + q == q;
    Varint32Value([], 0, q, Varint32(bs).value.rest);
    LowBits(GroupValue(p));
  }

  lemma LowBits(g: nat)
    ensures g % TWO64 % TWO32 == g % TWO32
  {
  }

  lemma VarintsAlign(p: seq<byte>, pr: seq<byte>, q: seq<byte>, qr: seq<byte>)
    requires IsVarint(p) && IsVarint(q) && p + pr == q + qr
    ensures p == q && pr == qr
  {
    var n := if |p| < |q| then |p| else |q|;
    assert (p + pr)[n - 1] == p[n - 1] && (q + qr)[n - 1] == q[n - 1];
    assert (p + pr)[..|p|] == p && (q + qr)[..|q|] == q;
    assert (p + pr)[|p|..] == pr && (q + qr)[|q|..] == qr;
  }

  lemma {:induction false} Varint32AcceptsSmall(done: seq<byte>, p: seq<byte>, rest: seq<byte>)
    requires IsVarint(p) && |done| + |p| <= 5 && GroupValue(done + p) < TWO32
    ensures GroupValue(done) < TWO32
    ensures Varint32From(p + rest, |done|, GroupValue(done)) == Some(Parsed(GroupValue(done + p), rest))
    decreases |p|
  {
    var b := p[0];
    VarintTail(p);
    hide Varint32From, GroupValue, IsVarint, Accumulate32, Overflows32;
    Regroup(done, p, rest);
    GroupValueAppend(done, b);
    if |p| == 1 {
      assert p == [b] && p[1..] + rest == rest;
    } else {
      Varint32AcceptsSmall(done + [b], p[1..], rest);
    }
    SmallStep32(GroupValue(done), |done|, b);
    Varint32Step(b, p[1..] + rest, |done|, GroupValue(done));
  }

  lemma SmallStep32(acc: nat, k: nat, b: byte)
    requires k < 5 && acc + Shift7(b % 128, k) < TWO32
    ensures !Overflows32(acc, k, b) && Accumulate32(acc, k, b) == acc + Shift7(b % 128, k)
    ensures k == 4 ==> b % 128 < 16
  {
    if k == 4 {
      Shift7Values(b % 128);
    }
  }

  /** The 32-bit decoder reads back every canonical encoding of a value below
      2^32. */
  lemma Varint32RoundTrip(v: nat, rest: seq<byte>)
    requires v < TWO32
    ensures Varint32(VarintBytes(v) + rest) == Some(Parsed(v, rest))
  {
    var p := VarintBytes(v);
    assert |p| <= 5 by {
      Shift7Values(1);
      VarintBytesLength(v, 5);
    }
    assert GroupValue(p) == v by { GroupValueOfVarintBytes(v); }
    assert [] + p == p;
    Varint32AcceptsSmall([], p, rest);
  }

  /** Continuation bytes below bit 35 are always taken. */
  lemma {:induction false} LowContinuations32(done: seq<byte>, acc: nat, p: seq<byte>, rest: seq<byte>)
    requires acc == GroupValue(done) % TWO32 && |done| + |p| <= 5
    requires forall i :: 0 <= i < |p| ==> p[i] >= 128
    ensures Varint32From(p + rest, |done|, acc)
         == Varint32From(rest, |done| + |p|, GroupValue(done + p) % TWO32)
    decreases |p|
  {
    hide Varint32From, GroupValue, Accumulate32;
    if p == [] {
      assert p + rest == rest && done + p == done;
    } else {
      var b := p[0];
      var acc' := Accumulate32(acc, |done|, b);
      Regroup(done, p, rest);
      assert acc' == GroupValue(done + [b]) % TWO32 by {
        GroupValueAppend(done, b);
        AccumulateIsGroup(GroupValue(done), |done|, b);
      }
      Varint32Step(b, p[1..] + rest, |done|, acc);
      LowContinuations32(done + [b], acc', p[1..], rest);
    }
  }

  /** A canonical encoding with more than `n` bytes, cut after `n` of them. */
  lemma {:induction false} SplitVarint(v: nat, n: nat) returns (p: seq<byte>, d: nat)
    requires v >= Shift7(1, n)
    ensures |p| == n && (forall i :: 0 <= i < n ==> p[i] >= 128)
    ensures VarintBytes(v) == p + VarintBytes(d)
    ensures v == GroupValue(p) + Shift7(d, n) && GroupValue(p) < Shift7(1, n)
  {
    if n == 0 {
      p, d := [], v;
      assert p + VarintBytes(d) == VarintBytes(v);
    } else {
      assert v >= 128 by { assert Shift7(1, n) == 128 * Shift7(1, n - 1); }
      var b: byte, v' := 128 + v % 128, v / 128;
      var tail;
      assert v' >= Shift7(1, n - 1);
      tail, d := SplitVarint(v', n - 1);
      p := [b] + tail;
      assert VarintBytes(v) == [b] + VarintBytes(v');
      assert [b] + (tail + VarintBytes(d)) == p + VarintBytes(d);
      GroupValueCons(b, tail);
    }
  }

  lemma GroupValueCons(b: byte, tail: seq<byte>)
    ensures GroupValue([b] + tail) == b % 128 + 128 * GroupValue(tail)
  {
    assert ([b] + tail)[1..] == tail;
  }

  lemma LowContinuationsWhole32(p: seq<byte>, rest: seq<byte>)
    requires |p| <= 5 && forall i :: 0 <= i < |p| ==> p[i] >= 128
    ensures Varint32(p + rest) == Varint32From(rest, |p|, GroupValue(p) % TWO32)
  {
    assert [] + p == p;
    LowContinuations32([], 0, p, rest);
  }

  lemma CanonicalSteps32(v: nat, rest: seq<byte>)
    requires v >= 0x8_0000_0000
    ensures Varint32(VarintBytes(v) + rest)
         == Varint32From(VarintBytes(v / 0x8_0000_0000) + rest, 5, v % TWO32)
  {
    hide Varint32From, Varint32, GroupValue, VarintBytes, Shift7;
    Shift7Values(1);
    var p, d := SplitVarint(v, 5);
    Shift7Values(d);
    CutAt35(v, GroupValue(p), d);
    LowContinuationsWhole32(p, VarintBytes(d) + rest);
    assert p + VarintBytes(d) + rest == p + (VarintBytes(d) + rest);
  }

  lemma CutAt35(v: nat, low: nat, d: nat)
    requires v == low + 0x8_0000_0000 * d && low < 0x8_0000_0000
    ensures d == v / 0x8_0000_0000 && low % TWO32 == v % TWO32
  {
  }

  /** From bit 35 on, a canonical encoding that ends before bit 63 is refused. */
  lemma {:induction false} HighCanonicalRefused(w: nat, k: nat, acc: nat, rest: seq<byte>)
    requires w > 0 && 5 <= k < 9 && w < Shift7(1, 9 - k) && acc < TWO32
    ensures Varint32From(VarintBytes(w) + rest, k, acc) == None
  {
    var p := VarintBytes(w);
    if w < 128 {
      assert (p + rest)[0] == w;
    } else {
      assert (p + rest)[0] == 128 + w % 128;
      assert (p + rest)[1..] == VarintBytes(w / 128) + rest;
      if k + 1 < 9 {
        HighCanonicalRefused(w / 128, k + 1, acc, rest);
      }
    }
  }

  /** The 32-bit decoder refuses every canonical encoding of a value from 2^32
      up to 2^63: a length prefix it reads back is always below 2^32. */
  lemma Varint32Refuses(v: nat, rest: seq<byte>)
    requires TWO32 <= v < TWO63
    ensures Varint32(VarintBytes(v) + rest) == None
  {
    if v >= 0x8_0000_0000 {
      CanonicalSteps32(v, rest);
      assert v / 0x8_0000_0000 < Shift7(1, 4) by { Shift7Values(1); }
      HighCanonicalRefused(v / 0x8_0000_0000, 5, v % TWO32, rest);
    } else {
      Shift7Values(1);
      var p, d := SplitVarint(v, 4);
      Shift7Values(d);
      LowContinuationsWhole32(p, VarintBytes(d) + rest);
      assert VarintBytes(v) + rest == p + (VarintBytes(d) + rest);
      assert 16 <= d < 128;
      assert VarintBytes(d) == [d] && ([d] + rest)[0] == d;
    }
  }

  /** The all-ones groups of a sign-extended negative number from bit 7 * k. */
  function Ones(k: nat): (w: nat)
    requires 5 <= k <= 9
    ensures w > 0
    decreases 9 - k
  {
    if k == 9 then 1 else 127 + 128 * Ones(k + 1)
  }

  lemma SignByteTaken(k: nat, acc: nat, rest: seq<byte>)
    requires 5 <= k <= 9 && TWO31 <= acc < TWO32
    ensures Varint32From([SignExtension(k)] + rest, k, acc)
         == if k == 9 then Some(Parsed(acc, rest)) else Varint32From(rest, k + 1, acc)
  {
    hide Varint32From;
    Varint32Step(SignExtension(k), rest, k, acc);
  }

  lemma {:induction false} SignBytesAccepted(w: nat, k: nat, acc: nat, rest: seq<byte>)
    requires 5 <= k <= 9 && w == Ones(k) && TWO31 <= acc < TWO32
    ensures Varint32From(VarintBytes(w) + rest, k, acc) == Some(Parsed(acc, rest))
    decreases 9 - k
  {
    hide *;
    OnesBytes(k, rest);
    if k == 9 {
      SignByteTaken(k, acc, rest);
    } else {
      SignByteTaken(k, acc, VarintBytes(Ones(k + 1)) + rest);
      SignBytesAccepted(Ones(k + 1), k + 1, acc, rest);
    }
  }

  lemma OnesBytes(k: nat, rest: seq<byte>)
    requires 5 <= k <= 9
    ensures VarintBytes(Ones(k)) + rest
         == [SignExtension(k)] + if k == 9 then rest else VarintBytes(Ones(k + 1)) + rest
  {
    if k == 9 {
      assert VarintBytes(1) == [1];
    } else {
      var v, w := Ones(k), Ones(k + 1);
      assert v == 127 + 128 * w;
      hide VarintBytes, Ones;
      SevenOnes(w);
      assert [255] + VarintBytes(w) + rest == [255] + (VarintBytes(w) + rest);
    }
  }

  lemma SevenOnes(w: nat)
    requires w > 0
    ensures VarintBytes(127 + 128 * w) == [255] + VarintBytes(w)
  {
    assert (127 + 128 * w) / 128 == w && (127 + 128 * w) % 128 == 127;
  }

  lemma OnesValue()
    ensures Ones(5) == 0x1FFF_FFFF
  {
    assert Ones(8) == 127 + 128 * Ones(9) == 255;
    assert Ones(6) == 127 + 128 * Ones(7);
  }

  /** A negative int32 that was sign-extended to 64 bits before encoding is
      accepted, and comes back as its low 32 bits. */
  lemma Varint32SignExtended(x: int, v: nat, rest: seq<byte>)
    requires -TWO31 <= x < 0 && v == TWO64 + x
    ensures Varint32(VarintBytes(v) + rest) == Some(Parsed(TWO32 + x, rest))
  {
    CanonicalSteps32(v, rest);
    SignExtendedParts(x, v);
    OnesValue();
    SignBytesAccepted(v / 0x8_0000_0000, 5, v % TWO32, rest);
  }

  lemma SignExtendedParts(x: int, v: nat)
    requires -TWO31 <= x < 0 && v == TWO64 + x
    ensures v / 0x8_0000_0000 == 0x1FFF_FFFF && v % TWO32 == TWO32 + x
  {
  }

  // -- Zigzag and fixed-width values -----------------------------------------

  /** pb_encode_svarint: `~((uint64_t)value << 1)` for negative values. */
  function ZigZag(x: int): nat
    requires -TWO63 <= x < TWO63
  {
    if x < 0 then TWO64 - 1 - (2 * (TWO64 + x)) % TWO64 else (2 * x) % TWO64
  }

  /** pb_decode_svarint: `~(value >> 1)` for odd values, read as int64. */
  function UnZigZag(u: nat): int
    requires u < TWO64
  {
    if u % 2 == 1 then AsInt64(TWO64 - 1 - u / 2) else AsInt64(u / 2)
  }

  function AsInt64(u: nat): int
    requires u < TWO64
  {
    if u < TWO63 then u else u - TWO64
  }

  /** Every int64 survives zigzag coding, as a varint of 1 to 10 bytes. */
  lemma ZigZagRoundTrip(x: int, rest: seq<byte>)
    requires -TWO63 <= x < TWO63
    ensures ZigZag(x) == (if x < 0 then -2 * x - 1 else 2 * x) < TWO64 && UnZigZag(ZigZag(x)) == x
    ensures Varint64(VarintBytes(ZigZag(x)) + rest) == Some(Parsed(ZigZag(x), rest))
  {
    assert ZigZag(x) == if x < 0 then -2 * x - 1 else 2 * x;
    Varint64RoundTrip(ZigZag(x), rest);
  }

  /** pb_encode_fixed32 and pb_encode_fixed64: `n` bytes, least significant first. */
  function FixedBytes(v: nat, n: nat): (p: seq<byte>)
    ensures |p| == n
  {
    if n == 0 then [] else [v % 256] + FixedBytes(v / 256, n - 1)
  }

  function FixedValue(p: seq<byte>): nat {
    if p == [] then 0 else p[0] + 256 * FixedValue(p[1..])
  }

  /** Byte `i` of a number, from the lowest. */
  function ByteOf(v: nat, i: nat): nat {
    if i == 0 then v % 256 else ByteOf(v / 256, i - 1)
  }

  /** The lowest byte comes first. */
  lemma {:induction false} FixedDigits(v: nat, n: nat, i: nat)
    requires i < n
    ensures FixedBytes(v, n)[i] == ByteOf(v, i)
  {
    if i > 0 {
      FixedDigits(v / 256, n - 1, i - 1);
      assert FixedBytes(v, n)[i] == FixedBytes(v / 256, n - 1)[i - 1];
    }
  }

  lemma {:induction false} FixedRoundTrip(v: nat, n: nat)
    requires v < Pow256(n)
    ensures FixedValue(FixedBytes(v, n)) == v
  {
    if n > 0 {
      FixedRoundTrip(v / 256, n - 1);
      assert FixedBytes(v, n)[1..] == FixedBytes(v / 256, n - 1);
    }
  }

  lemma {:induction false} FixedValueBound(p: seq<byte>)
    ensures FixedValue(p) < Pow256(|p|)
  {
    if p != [] {
      FixedValueBound(p[1..]);
    }
  }
}
