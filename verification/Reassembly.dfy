/** Reassembly of one DTLS handshake message (d1_both.cc): the bitmask refines
    the set of offsets received (sections 4.2.3 and 4.2.6 of RFC 6347). */
module Reassembly {
  import opened Bytes
  import opened DtlsFragment
  import opened Bits

  /** A message being assembled: the bytes received so far, by offset, and the
      read epochs of the records they came in. */
  datatype Partial = Partial(msgType: byte, msgSeq: nat, msgLen: nat, bytes: map<nat, byte>, epochs: set<nat>)

  ghost predicate Complete(p: Partial) {
    forall k :: 0 <= k < p.msgLen ==> k in p.bytes
  }

  /** What a fragment at `off` adds. */
  function Added(off: nat, body: seq<byte>): (r: map<nat, byte>)
    ensures forall k: nat :: k in r <==> off <= k < off + |body|
    ensures forall k: nat :: k in r ==> r[k] == body[k - off]
    decreases |body|
  {
    if body == [] then map[]
    else
      var n := |body| - 1;
      Added(off, body[..n])[off + n := body[n]]
  }

  /** A fragment arriving for a message that is not complete yet; afterwards
      nothing changes any more. */
  ghost function Receive(p: Partial, off: nat, body: seq<byte>, epoch: nat): Partial {
    if Complete(p) then p else p.(bytes := p.bytes + Added(off, body), epochs := p.epochs + {epoch})
  }

  /** The contents of a complete message, header included. */
  ghost function Assembled(p: Partial): seq<byte>
    requires Complete(p)
  {
    Serialize(Header(p.msgType, p.msgLen, p.msgSeq, 0, p.msgLen)) + Body(p)
  }

  ghost function Body(p: Partial): (b: seq<byte>)
    requires Complete(p)
    ensures |b| == p.msgLen && forall k :: 0 <= k < |b| ==> b[k] == p.bytes[k]
  {
    seq(p.msgLen, k requires 0 <= k < p.msgLen => p.bytes[k])
  }

  /** `p` holds nothing but bytes of `m`. */
  ghost predicate Of(p: Partial, m: Message) {
    && p.msgType == m.msgType && p.msgSeq == m.msgSeq && p.msgLen == |m.body|
    && forall k :: k in p.bytes ==> k < |m.body| && p.bytes[k] == m.body[k]
  }

  lemma ReceiveOf(p: Partial, m: Message, off: nat, len: nat, epoch: nat)
    requires Of(p, m) && off + len <= |m.body|
    ensures Of(Receive(p, off, m.body[off..off + len], epoch), m)
  {
  }

  lemma AssembledOf(p: Partial, m: Message)
    requires Of(p, m) && Complete(p)
    ensures Assembled(p) == Raw(m) && Body(p) == m.body
  {
    assert Body(p) == m.body == m.body[0..|m.body|];
  }

  /** Where a fragment lies in its message, and the epoch of its record. */
  datatype Piece = Piece(off: nat, len: nat, epoch: nat)

  ghost function ReceiveAll(m: Message, pieces: seq<Piece>): Partial
    requires Inside(m, pieces)
  {
    if pieces == [] then Partial(m.msgType, m.msgSeq, |m.body|, map[], {})
    else
      var last := pieces[|pieces| - 1];
      Receive(ReceiveAll(m, pieces[..|pieces| - 1]), last.off, m.body[last.off..last.off + last.len], last.epoch)
  }

  ghost predicate Covered(pieces: seq<Piece>, k: nat) {
    exists i :: 0 <= i < |pieces| && pieces[i].off <= k < pieces[i].off + pieces[i].len
  }

  ghost predicate Inside(m: Message, pieces: seq<Piece>) {
    forall i :: 0 <= i < |pieces| ==> pieces[i].off + pieces[i].len <= |m.body|
  }

  lemma CoveredStep(pieces: seq<Piece>, k: nat)
    requires pieces != []
    ensures var n := |pieces| - 1;
            Covered(pieces, k) <==> Covered(pieces[..n], k) || pieces[n].off <= k < pieces[n].off + pieces[n].len
  {
    var n := |pieces| - 1;
    if Covered(pieces[..n], k) {
      var i :| 0 <= i < n && pieces[..n][i].off <= k < pieces[..n][i].off + pieces[..n][i].len;
      assert pieces[i] == pieces[..n][i];
    }
    if Covered(pieces, k) {
      var i :| 0 <= i < |pieces| && pieces[i].off <= k < pieces[i].off + pieces[i].len;
      assert i == n || pieces[..n][i] == pieces[i];
    }
  }

  lemma ReceiveKeys(p: Partial, off: nat, body: seq<byte>, epoch: nat, k: nat)
    requires off + |body| <= p.msgLen && k < p.msgLen
    ensures k in Receive(p, off, body, epoch).bytes <==> k in p.bytes || off <= k < off + |body|
  {
  }

  lemma {:induction false} ReceivedOf(m: Message, pieces: seq<Piece>)
    requires Inside(m, pieces)
    ensures Of(ReceiveAll(m, pieces), m)
  {
    if pieces != [] {
      var before, last := ReceiveAll(m, pieces[..|pieces| - 1]), pieces[|pieces| - 1];
      ReceivedOf(m, pieces[..|pieces| - 1]);
      hide Receive;
      ReceiveOf(before, m, last.off, last.len, last.epoch);
    }
  }

  /** Whatever the order, overlap or duplication of its fragments, offset `k`
      has been received iff some fragment covered it ... */
  lemma {:induction false} ReceivedIffCovered(m: Message, pieces: seq<Piece>, k: nat)
    requires Inside(m, pieces) && k < |m.body|
    ensures k in ReceiveAll(m, pieces).bytes <==> Covered(pieces, k)
  {
    if pieces != [] {
      var n := |pieces| - 1;
      var before, last := ReceiveAll(m, pieces[..n]), pieces[n];
      ReceivedIffCovered(m, pieces[..n], k);
      ReceivedOf(m, pieces[..n]);
      CoveredStep(pieces, k);
      hide Covered, Receive;
      ReceiveKeys(before, last.off, m.body[last.off..last.off + last.len], last.epoch, k);
    }
  }

  /** ... and once they cover all of it, the message is its single-fragment form,
      byte for byte. */
  lemma AnyOrderReassembles(m: Message, pieces: seq<Piece>)
    requires Inside(m, pieces)
    ensures Complete(ReceiveAll(m, pieces)) <==> forall k: nat :: k < |m.body| ==> Covered(pieces, k)
    ensures Complete(ReceiveAll(m, pieces)) ==> Assembled(ReceiveAll(m, pieces)) == Raw(m)
  {
    ReceivedOf(m, pieces);
    var p := ReceiveAll(m, pieces);
    hide Covered, ReceiveAll;
    forall k: nat | k < |m.body| ensures k in p.bytes <==> Covered(pieces, k) {
      ReceivedIffCovered(m, pieces, k);
    }
    if Complete(p) {
      AssembledOf(p, m);
    }
  }

  // -- The bitmask ---------------------------------------------------------------------------

  predicate Got(mask: seq<nat>, k: nat) {
    k / 8 < |mask| && Bit(mask[k / 8], k % 8)
  }

  ghost predicate Words(mask: seq<nat>) {
    forall i :: 0 <= i < |mask| ==> mask[i] < One(8)
  }

  /** `mask` is `was` with offsets [start, end) added, as far as word `upto`. */
  ghost predicate Grown(was: seq<nat>, mask: seq<nat>, start: nat, end: nat, upto: nat) {
    && |mask| == |was| && upto <= |mask|
    && (forall k: nat :: k / 8 < upto ==> (Got(mask, k) <==> Got(was, k) || start <= k < end))
    && forall i :: upto <= i < |mask| ==> mask[i] == was[i]
  }

  /** The bytes of `d` that `mask` marks, or all of them. */
  function Shown(d: seq<byte>, mask: seq<nat>, all: bool): map<nat, byte> {
    map k: nat | k < |d| && (all || Got(mask, k)) :: d[k]
  }

  /** `d` with `body` copied to `off`. */
  function Overlay(d: seq<byte>, off: nat, body: seq<byte>): (r: seq<byte>)
    requires off + |body| <= |d|
    ensures |r| == |d|
  {
    d[..off] + body + d[off + |body|..]
  }

  lemma ShownGrows(d: seq<byte>, mask: seq<nat>, off: nat, body: seq<byte>, next: seq<nat>, all: bool)
    requires off + |body| <= |d|
    requires forall k: nat :: k < |d| ==> (all || Got(next, k) <==> Got(mask, k) || off <= k < off + |body|)
    ensures Shown(Overlay(d, off, body), next, all) == Shown(d, mask, false) + Added(off, body)
  {
    hide Got;
    var r, t := Shown(Overlay(d, off, body), next, all), Shown(d, mask, false) + Added(off, body);
    forall k: nat
      ensures k in r <==> k in t
      ensures k in r ==> r[k] == t[k]
    {
    }
  }

  lemma OrWord(was: seq<nat>, mask: seq<nat>, start: nat, end: nat, i: nat, lo: nat, hi: nat)
    requires Words(mask) && Grown(was, mask, start, end, i) && i < |mask| && lo <= hi <= 8
    requires lo == (if start <= 8 * i then 0 else start - 8 * i) && hi == (if end >= 8 * i + 8 then 8 else end - 8 * i)
    ensures var next := mask[i := Or(mask[i], RangeMask(lo, hi))];
            Words(next) && Grown(was, next, start, end, i + 1)
  {
    hide Bit, Or, RangeMask, One;
    var next := mask[i := Or(mask[i], RangeMask(lo, hi))];
    OneGrows(hi, 8);
    OrBound(mask[i], RangeMask(lo, hi), 8);
    forall k: nat | k / 8 < i + 1
      ensures Got(next, k) <==> Got(was, k) || start <= k < end
    {
      if k / 8 == i {
        assert mask[i] == was[i];
        OrBit(mask[i], RangeMask(lo, hi), k % 8);
        RangeBit(lo, hi, k % 8);
      } else {
        assert Got(next, k) <==> Got(mask, k);
      }
    }
  }

  lemma FullWord(was: seq<nat>, mask: seq<nat>, start: nat, end: nat, i: nat)
    requires Words(mask) && Grown(was, mask, start, end, i) && i < |mask| && start <= 8 * i && 8 * i + 8 <= end
    ensures Words(mask[i := 255]) && Grown(was, mask[i := 255], start, end, i + 1)
  {
    var next := mask[i := 255];
    AllOnes(255, 8);
    forall k: nat | k / 8 < i + 1
      ensures Got(next, k) <==> Got(was, k) || start <= k < end
    {
      if k / 8 == i {
        assert start <= k < end && Bit(255, k % 8);
      } else {
        assert Got(next, k) <==> Got(mask, k);
      }
    }
  }

  lemma SkipWord(was: seq<nat>, mask: seq<nat>, start: nat, end: nat, i: nat)
    requires Grown(was, mask, start, end, i) && i <= |mask| && (8 * i >= end || i == |mask|)
    ensures Grown(was, mask, start, end, |mask|)
  {
  }

  class HmFragment {
    const msgType: byte
    const msgSeq: nat
    const msgLen: nat
    /** The header and then the message. */
    const data: array<byte>
    /** One bit for each byte of the message; null once they are all there. */
    var reassembly: array?<nat>
    /** The read epochs of the records that contributed bytes. */
    ghost var Epochs: set<nat>

    ghost predicate Valid()
      reads this, data, reassembly
    {
      && data.Length == DTLS1_HM_HEADER_LENGTH + msgLen
      && data[..12] == Serialize(Header(msgType, msgLen, msgSeq, 0, msgLen))
      && (reassembly != null ==>
            && reassembly as object != data
            && reassembly.Length == (msgLen + 7) / 8 && Words(reassembly[..])
            && (forall k: nat :: k >= msgLen ==> !Got(reassembly[..], k))
            && exists k: nat :: k < msgLen && !Got(reassembly[..], k))
    }

    ghost predicate Marked(k: nat)
      reads this, reassembly
    {
      reassembly == null || Got(reassembly[..], k)
    }

    ghost function Bytes(): map<nat, byte>
      reads this, data, reassembly
      requires Valid()
    {
      if reassembly == null then Shown(data[12..], [], true) else Shown(data[12..], reassembly[..], false)
    }

    ghost function Abstract(): Partial
      reads this, data, reassembly
      requires Valid()
    {
      Partial(msgType, msgSeq, msgLen, Bytes(), Epochs)
    }

    lemma NullIffComplete()
      requires Valid()
      ensures reassembly == null <==> Complete(Abstract())
    {
      if reassembly != null {
        var k: nat :| k < msgLen && !Got(reassembly[..], k);
        assert k !in Bytes();
      }
    }

    /** dtls1_hm_fragment_new. */
    constructor (h: Header)
      ensures Valid() && Abstract() == Partial(h.msgType, h.msgSeq, h.msgLen, map[], {})
      ensures fresh(data) && (reassembly != null ==> fresh(reassembly))
    {
      msgType, msgSeq, msgLen := h.msgType, h.msgSeq, h.msgLen;
      var header := Serialize(Header(h.msgType, h.msgLen, h.msgSeq, 0, h.msgLen));
      var d := new byte[DTLS1_HM_HEADER_LENGTH + h.msgLen];
      forall i | 0 <= i < DTLS1_HM_HEADER_LENGTH {
        d[i] := header[i];
      }
      data := d;
      Epochs := {};
      if h.msgLen > 0 {
        reassembly := new nat[(h.msgLen + 7) / 8](_ => 0);
      } else {
        reassembly := null;
      }
      new;
      assert data[..12] == header;
      if reassembly != null {
        forall k: nat ensures !Got(reassembly[..], k) {
          ZeroBit(k % 8);
        }
        assert 0 < msgLen && !Got(reassembly[..], 0);
      }
    }

    /** The marking loop of dtls1_hm_fragment_mark. */
    method MarkRange(start: nat, end: nat)
      requires Valid() && reassembly != null && start < end <= msgLen
      modifies reassembly
      ensures reassembly.Length == old(reassembly.Length) && Words(reassembly[..])
      ensures forall k: nat :: Got(reassembly[..], k) <==> old(Got(reassembly[..], k)) || start <= k < end
    {
      ghost var was := reassembly[..];
      if start / 8 == end / 8 {
        OrWord(was, reassembly[..], start, end, start / 8, start % 8, end % 8);
        reassembly[start / 8] := Or(reassembly[start / 8], RangeMask(start % 8, end % 8));
        SkipWord(was, reassembly[..], start, end, start / 8 + 1);
      } else {
        OrWord(was, reassembly[..], start, end, start / 8, start % 8, 8);
        reassembly[start / 8] := Or(reassembly[start / 8], RangeMask(start % 8, 8));
        for i := start / 8 + 1 to end / 8
          invariant reassembly.Length == |was| && Words(reassembly[..])
          invariant Grown(was, reassembly[..], start, end, i)
        {
          FullWord(was, reassembly[..], start, end, i);
          reassembly[i] := 255;
        }
        if end % 8 != 0 {
          OrWord(was, reassembly[..], start, end, end / 8, 0, end % 8);
          reassembly[end / 8] := Or(reassembly[end / 8], RangeMask(0, end % 8));
          SkipWord(was, reassembly[..], start, end, end / 8 + 1);
        } else {
          SkipWord(was, reassembly[..], start, end, end / 8);
        }
      }
    }

    /** "Check if the fragment is complete." */
    method AllReceived() returns (all: bool)
      requires reassembly != null && reassembly.Length == (msgLen + 7) / 8 && Words(reassembly[..])
      requires forall k: nat :: k >= msgLen ==> !Got(reassembly[..], k)
      ensures all <==> forall k: nat :: k < msgLen ==> Got(reassembly[..], k)
    {
      ghost var mask := reassembly[..];
      for i := 0 to msgLen / 8
        invariant forall k: nat :: k < 8 * i ==> Got(mask, k)
      {
        AllOnes(mask[i], 8);
        if reassembly[i] != 255 {
          ghost var j :| 0 <= j < 8 && !Bit(mask[i], j);
          assert (8 * i + j) / 8 == i && (8 * i + j) % 8 == j;
          assert 8 * i + j < msgLen && !Got(reassembly[..], 8 * i + j);
          return false;
        }
        forall k: nat | k < 8 * (i + 1) ensures Got(mask, k) {
          if k >= 8 * i {
            assert k / 8 == i && Bit(mask[i], k % 8);
          }
        }
      }
      if msgLen % 8 != 0 {
        LastByte(mask, msgLen);
        if reassembly[msgLen / 8] != RangeMask(0, msgLen % 8) {
          ghost var k: nat :| k < msgLen && !Got(mask, k);
          assert !Got(reassembly[..], k);
          return false;
        }
      }
      forall k: nat | k < msgLen ensures Got(mask, k) {
        if k < 8 * (msgLen / 8) {
          assert Got(mask, k);
        }
      }
      return true;
    }

    /** dtls1_hm_fragment_mark: the bitmask goes away exactly when every byte of
        the message has been received. */
    method Mark(start: nat, end: nat)
      requires Valid() && reassembly != null && start <= end <= msgLen
      modifies this`reassembly, reassembly
      ensures Valid()
      ensures forall k: nat :: k < msgLen ==> (Marked(k) <==> Got(old(reassembly[..]), k) || start <= k < end)
      ensures reassembly == null <==> forall k: nat :: k < msgLen ==> Marked(k)
      ensures reassembly == null || reassembly == old(reassembly)
    {
      ghost var missing: nat :| missing < msgLen && !Got(reassembly[..], missing);
      if start == end {
        assert !Marked(missing);
        return;
      }
      MarkRange(start, end);
      var all := AllReceived();
      if all {
        forall k: nat | k < msgLen ensures Got(old(reassembly[..]), k) || start <= k < end {
          assert Got(reassembly[..], k);
        }
        reassembly := null;
      } else {
        missing :| missing < msgLen && !Got(reassembly[..], missing);
        assert !Marked(missing);
      }
    }

    /** The message with its header, as dtls1_get_message hands it out. */
    method Contents() returns (raw: seq<byte>)
      requires Valid() && reassembly == null
      ensures Complete(Abstract()) && raw == Assembled(Abstract())
    {
      raw := data[..];
      assert data[..] == data[..12] + data[12..];
      assert Body(Abstract()) == data[12..];
    }

    /** The end of the loop in dtls1_open_handshake: copy the body and mark it. */
    method Absorb(off: nat, body: seq<byte>, epoch: nat)
      requires Valid() && reassembly != null && off + |body| <= msgLen
      modifies this, data, reassembly
      ensures Valid() && Abstract() == Receive(old(Abstract()), off, body, epoch)
      ensures reassembly == null <==> Complete(Abstract())
      ensures reassembly == null || reassembly == old(reassembly)
    {
      ghost var k: nat :| k < msgLen && !Got(reassembly[..], k);
      assert !Complete(Abstract()) by { assert k !in Bytes(); }
      ghost var was, d := reassembly[..], data[12..];
      hide Got, Words, Serialize, Overlay;
      Copy(off, body);
      assert reassembly[..] == was;
      Epochs := Epochs + {epoch};
      Mark(off, off + |body|);
      ghost var all := reassembly == null;
      ghost var next := if all then [] else reassembly[..];
      forall k: nat | k < msgLen
        ensures all || Got(next, k) <==> Got(was, k) || off <= k < off + |body|
      {
        assert Marked(k) <==> Got(was, k) || off <= k < off + |body|;
      }
      ShownGrows(d, was, off, body, next, all);
      assert forall k: nat :: k < msgLen ==> (Marked(k) <==> k in Bytes());
    }

    /** The memcpy of dtls1_open_handshake. */
    method Copy(off: nat, body: seq<byte>)
      requires data.Length == DTLS1_HM_HEADER_LENGTH + msgLen && off + |body| <= msgLen
      modifies data
      ensures data[..12] == old(data[..12]) && data[12..] == Overlay(old(data[12..]), off, body)
    {
      forall i | 0 <= i < |body| {
        data[12 + off + i] := body[i];
      }
    }
  }

  lemma LastByte(mask: seq<nat>, msgLen: nat)
    requires |mask| == (msgLen + 7) / 8 && Words(mask) && msgLen % 8 != 0
    requires forall k: nat :: k >= msgLen ==> !Got(mask, k)
    ensures mask[msgLen / 8] == RangeMask(0, msgLen % 8) <==>
            forall k: nat :: msgLen - msgLen % 8 <= k < msgLen ==> Got(mask, k)
  {
    var w, n, b := mask[msgLen / 8], msgLen % 8, msgLen - msgLen % 8;
    forall j: nat | j < 8 ensures Bit(w, j) <==> Got(mask, b + j) {
      assert (b + j) / 8 == msgLen / 8 && (b + j) % 8 == j;
    }
    assert forall j: nat :: n <= j < 8 ==> !Bit(w, j);
    FewBits(w, n, 8);
    AllOnes(w, n);
    assert forall k: nat :: b <= k < msgLen ==> (Got(mask, k) <==> Bit(w, k - b));
    if forall k: nat :: b <= k < msgLen ==> Got(mask, k) {
      forall j | 0 <= j < n ensures Bit(w, j) {
        assert Got(mask, b + j);
      }
    }
  }
}
