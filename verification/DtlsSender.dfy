/** Sending DTLS handshake messages (d1_both.cc): a flight is cut into
    fragments and packets, resumed after failed writes, and retransmitted. */
module DtlsSender {
  import opened Bytes
  import opened Options
  import opened BigEndian
  import opened DtlsFragment

  const FLIGHT := 7
  const MIN_MTU := 228
  const DEFAULT_MTU := 1472
  const SSL3_RT_CHANGE_CIPHER_SPEC: byte := 20
  const SSL3_RT_HANDSHAKE: byte := 22
  const SSL3_MT_CCS: byte := 1

  /** DTLS_OUTGOING_MESSAGE. */
  datatype OutMsg = OutMsg(data: seq<byte>, epoch: nat, isCcs: bool)

  /** A sealed record: what it carries, and its size on the wire. */
  datatype Rec = Rec(epoch: nat, contentType: byte, payload: seq<byte>, size: nat)

  /** outgoing_written and outgoing_offset. */
  datatype Pos = Pos(msg: nat, off: nat)

  /** The message a queued item serializes: "DTLS messages are serialized as a
      single fragment". */
  function MessageOf(data: seq<byte>): Option<Message> {
    match ParseFragment(data)
    case None => None
    case Some(f) =>
      if f.hdr.fragOff != 0 || f.hdr.msgLen != |f.body| || f.rest != [] then None
      else Some(Message(f.hdr.msgType, f.hdr.msgSeq, f.body))
  }

  lemma MessageOfRaw(m: Message)
    requires Sendable(m)
    ensures MessageOf(Raw(m)) == Some(m)
  {
    SliceParses(m, 0, |m.body|, []);
    assert Raw(m) + [] == Raw(m) && m.body[0..|m.body|] == m.body;
  }

  function BodyLen(o: OutMsg): nat {
    if o.isCcs || MessageOf(o.data).None? then 0 else |MessageOf(o.data).value.body|
  }

  // -- What records say about a flight --------------------------------------------------------

  /** The position after `rec`, if it is the next piece of the flight at `p`: a
      ChangeCipherSpec, or a slice of the message that begins where the last one
      ended. */
  function Advance(flight: seq<OutMsg>, p: Pos, rec: Rec): Option<Pos> {
    if p.msg >= |flight| || rec.epoch != flight[p.msg].epoch then None
    else if flight[p.msg].isCcs then
      if rec.contentType == SSL3_RT_CHANGE_CIPHER_SPEC && rec.payload == [SSL3_MT_CCS] && p.off == 0
      then Some(Pos(p.msg + 1, 0)) else None
    else
      match MessageOf(flight[p.msg].data)
      case None => None
      case Some(m) =>
        var n := |rec.payload| - DTLS1_HM_HEADER_LENGTH;
        if n < 0 || p.off + n > |m.body| || rec.contentType != SSL3_RT_HANDSHAKE then None
        else if rec.payload != Slice(m, p.off, n) then None
        else if p.off + n == |m.body| then Some(Pos(p.msg + 1, 0))
        else if n > 0 then Some(Pos(p.msg, p.off + n)) else None
  }

  function Walk(flight: seq<OutMsg>, p: Pos, recs: seq<Rec>): Option<Pos> {
    if recs == [] then Some(p)
    else
      match Walk(flight, p, recs[..|recs| - 1])
      case None => None
      case Some(q) => Advance(flight, q, recs[|recs| - 1])
  }

  lemma WalkStep(flight: seq<OutMsg>, p: Pos, recs: seq<Rec>, rec: Rec)
    requires Walk(flight, p, recs).Some?
    ensures Walk(flight, p, recs + [rec]) == Advance(flight, Walk(flight, p, recs).value, rec)
  {
    assert (recs + [rec])[..|recs|] == recs;
  }

  lemma {:induction false} WalkAppend(flight: seq<OutMsg>, p: Pos, a: seq<Rec>, b: seq<Rec>)
    requires Walk(flight, p, a).Some?
    ensures Walk(flight, p, a + b) == Walk(flight, Walk(flight, p, a).value, b)
    decreases |b|
  {
    hide Advance;
    if b == [] {
      assert a + b == a;
    } else {
      var n := |b| - 1;
      WalkAppend(flight, p, a, b[..n]);
      assert (a + b)[..|a + b| - 1] == a + b[..n];
    }
  }

  lemma {:induction false} WalkExtends(flight: seq<OutMsg>, more: seq<OutMsg>, p: Pos, recs: seq<Rec>)
    requires Walk(flight, p, recs).Some?
    ensures Walk(flight + more, p, recs) == Walk(flight, p, recs)
    decreases |recs|
  {
    if recs != [] {
      WalkExtends(flight, more, p, recs[..|recs| - 1]);
    }
  }

  /** Earlier in the flight: fewer messages done, or fewer bytes of this one. */
  predicate Before(p: Pos, q: Pos) {
    p.msg < q.msg || (p.msg == q.msg && p.off < q.off)
  }

  lemma {:induction false} WalkForward(flight: seq<OutMsg>, p: Pos, recs: seq<Rec>)
    requires Walk(flight, p, recs).Some?
    ensures recs == [] || Before(p, Walk(flight, p, recs).value)
  {
    if recs != [] {
      WalkForward(flight, p, recs[..|recs| - 1]);
    }
  }

  /** The bytes of message `i` that the records carry, in the order they were sent. */
  function Carried(flight: seq<OutMsg>, p: Pos, recs: seq<Rec>, i: nat): seq<byte> {
    if recs == [] then []
    else
      var n := |recs| - 1;
      match Walk(flight, p, recs[..n])
      case None => []
      case Some(q) =>
        Carried(flight, p, recs[..n], i) +
        if q.msg == i && |recs[n].payload| >= DTLS1_HM_HEADER_LENGTH
        then recs[n].payload[DTLS1_HM_HEADER_LENGTH..] else []
  }

  /** The bytes of message `i` before position `q`. */
  function DoneBytes(flight: seq<OutMsg>, q: Pos, i: nat): seq<byte>
    requires i < |flight| && !flight[i].isCcs && MessageOf(flight[i].data).Some?
  {
    var body := MessageOf(flight[i].data).value.body;
    if i < q.msg then body else if i == q.msg && q.off <= |body| then body[..q.off] else []
  }

  lemma NextSlice(m: Message, off: nat, len: nat)
    requires off + len <= |m.body|
    ensures Slice(m, off, len)[DTLS1_HM_HEADER_LENGTH..] == m.body[off..off + len]
    ensures m.body[..off] + m.body[off..off + len] == m.body[..off + len]
    ensures off + len == |m.body| ==> m.body[..off + len] == m.body
  {
  }

  /** The next piece of a message adds its bytes to those done. */
  lemma AdvanceDone(flight: seq<OutMsg>, q: Pos, rec: Rec, i: nat)
    requires i < |flight| && !flight[i].isCcs && MessageOf(flight[i].data).Some? && Advance(flight, q, rec).Some?
    requires q.msg == i ==> q.off <= |MessageOf(flight[i].data).value.body|
    ensures var r := Advance(flight, q, rec).value;
            && DoneBytes(flight, r, i) == DoneBytes(flight, q, i) +
                 (if q.msg == i && |rec.payload| >= DTLS1_HM_HEADER_LENGTH
                  then rec.payload[DTLS1_HM_HEADER_LENGTH..] else [])
            && (r.msg == i ==> r.off <= |MessageOf(flight[i].data).value.body|)
  {
    hide MessageOf, Slice;
    if q.msg == i {
      NextSlice(MessageOf(flight[i].data).value, q.off, |rec.payload| - DTLS1_HM_HEADER_LENGTH);
    } else {
      assert DoneBytes(flight, q, i) + [] == DoneBytes(flight, q, i);
    }
  }

  /** The records of any walk from the start of a flight cut each message into a
      contiguous, disjoint, in-order partition of what has been sent of it. */
  lemma {:induction false} FragmentsPartition(flight: seq<OutMsg>, recs: seq<Rec>, i: nat)
    requires i < |flight| && !flight[i].isCcs && MessageOf(flight[i].data).Some?
    requires Walk(flight, Pos(0, 0), recs).Some?
    ensures Carried(flight, Pos(0, 0), recs, i) == DoneBytes(flight, Walk(flight, Pos(0, 0), recs).value, i)
    ensures i == Walk(flight, Pos(0, 0), recs).value.msg ==>
              Walk(flight, Pos(0, 0), recs).value.off <= |MessageOf(flight[i].data).value.body|
    decreases |recs|
  {
    if recs != [] {
      var n := |recs| - 1;
      hide Advance, MessageOf, DoneBytes;
      FragmentsPartition(flight, recs[..n], i);
      var q := Walk(flight, Pos(0, 0), recs[..n]).value;
      AdvanceDone(flight, q, recs[n], i);
    }
  }

  // -- What is lost for good ------------------------------------------------------------------

  /** One of the records is not the next piece of the flight, nor will be when the flight
      gets longer. */
  predicate Fell(flight: seq<OutMsg>, recs: seq<Rec>) {
    recs != [] &&
    var n := |recs| - 1;
    || Fell(flight, recs[..n])
    || match Walk(flight, Pos(0, 0), recs[..n])
       case None => false
       case Some(q) => q.msg < |flight| && Advance(flight, q, recs[n]).None?
  }

  /** The records do not reach position `at`: something before it is missing. */
  predicate Lags(flight: seq<OutMsg>, recs: seq<Rec>, at: Pos) {
    Fell(flight, recs) || match Walk(flight, Pos(0, 0), recs) case None => false case Some(q) => Before(q, at)
  }

  lemma {:induction false} FellIsNone(flight: seq<OutMsg>, recs: seq<Rec>)
    requires Fell(flight, recs)
    ensures Walk(flight, Pos(0, 0), recs) == None
    decreases |recs|
  {
    hide Advance;
    if Fell(flight, recs[..|recs| - 1]) {
      FellIsNone(flight, recs[..|recs| - 1]);
    }
  }

  lemma {:induction false} FellExtends(flight: seq<OutMsg>, o: OutMsg, recs: seq<Rec>)
    requires Fell(flight, recs)
    ensures Fell(flight + [o], recs)
    decreases |recs|
  {
    var n := |recs| - 1;
    if Fell(flight, recs[..n]) {
      hide Advance;
      FellExtends(flight, o, recs[..n]);
    } else {
      WalkExtends(flight, [o], Pos(0, 0), recs[..n]);
    }
  }

  lemma LagsExtends(flight: seq<OutMsg>, o: OutMsg, recs: seq<Rec>, at: Pos)
    requires Lags(flight, recs, at)
    ensures Lags(flight + [o], recs, at)
  {
    hide Advance;
    if Fell(flight, recs) {
      FellExtends(flight, o, recs);
    } else {
      hide Fell;
      WalkExtends(flight, [o], Pos(0, 0), recs);
    }
  }

  /** Slices of one message at different offsets differ. */
  lemma SlicesDiffer(m: Message, off: nat, off': nat, len: nat)
    requires |m.body| < TWO24 && off != off' && off + len <= |m.body| && off' + len <= |m.body|
    ensures Slice(m, off, len) != Slice(m, off', len)
  {
    Pow256Values();
    ValueOfEncode(off, 3);
    ValueOfEncode(off', 3);
    assert Slice(m, off, len)[6..9] == Encode(off, 3) && Slice(m, off', len)[6..9] == Encode(off', 3);
  }

  /** A record sealed at `at` does not let an earlier position catch up. */
  lemma NoCatchingUp(flight: seq<OutMsg>, q: Pos, at: Pos, rec: Rec)
    requires Before(q, at) && Advance(flight, at, rec).Some?
    ensures q.msg < |flight|
    ensures Advance(flight, q, rec).Some? ==> Before(Advance(flight, q, rec).value, Advance(flight, at, rec).value)
  {
    if q.msg == at.msg && !flight[q.msg].isCcs && Advance(flight, q, rec).Some? {
      var m := MessageOf(flight[q.msg].data).value;
      hide MessageOf, Slice;
      ParsedShort(flight[q.msg].data);
      SlicesDiffer(m, q.off, at.off, |rec.payload| - DTLS1_HM_HEADER_LENGTH);
    }
  }

  lemma ParsedShort(data: seq<byte>)
    requires MessageOf(data).Some?
    ensures |MessageOf(data).value.body| < TWO24
  {
  }

  lemma {:induction false} LagsOn(flight: seq<OutMsg>, recs: seq<Rec>, at: Pos, more: seq<Rec>)
    requires Lags(flight, recs, at) && Walk(flight, at, more).Some?
    ensures Lags(flight, recs + more, Walk(flight, at, more).value)
    decreases |more|
  {
    hide Advance;
    if more == [] {
      assert recs + more == recs;
    } else {
      var n := |more| - 1;
      var all, last := recs + more[..n], more[n];
      LagsOn(flight, recs, at, more[..n]);
      assert recs + more == all + [last] && (all + [last])[..|all|] == all;
      var mid := Walk(flight, at, more[..n]).value;
      if !Fell(flight, all) {
        NoCatchingUp(flight, Walk(flight, Pos(0, 0), all).value, mid, last);
      }
    }
  }

  /** Sealing that is not written moves the position on and the records stay behind. */
  lemma LagsBehind(flight: seq<OutMsg>, recs: seq<Rec>, at: Pos, lost: seq<Rec>)
    requires Walk(flight, at, lost).Some? && lost != []
    requires Lags(flight, recs, at) || Walk(flight, Pos(0, 0), recs) == Some(at)
    ensures Lags(flight, recs, Walk(flight, at, lost).value)
  {
    hide Advance, Fell;
    WalkForward(flight, at, lost);
  }

  // -- The sender -------------------------------------------------------------------------------

  /** Limits of the cipher of one epoch: dtls_max_seal_overhead and
      dtls_seal_prefix_len. */
  datatype Cipher = Cipher(overhead: nat, prefix: nat)

  datatype SealResult = SealError | NoProgress | SealPartial | SealSuccess

  function Size(packet: seq<Rec>): nat {
    if packet == [] then 0 else Size(packet[..|packet| - 1]) + packet[|packet| - 1].size
  }

  // -- What sealing makes of a flight ------------------------------------------------------------

  /** The write epoch and the ciphers of it and of the one before. */
  datatype Keys = Keys(epoch: nat, current: Cipher, previous: Cipher)

  /** The cipher an item of the flight is sealed with. */
  function CipherOf(o: OutMsg, keys: Keys): Option<Cipher> {
    if keys.epoch >= 1 && o.epoch == keys.epoch - 1 then Some(keys.previous)
    else if o.epoch == keys.epoch then Some(keys.current) else None
  }

  /** dtls_seal_record, given by how much the cipher expands the record, if it works. */
  function Sealed(epoch: nat, contentType: byte, payload: seq<byte>, c: Cipher, answer: Option<nat>): Option<Rec> {
    if answer.Some? && answer.value <= c.overhead
    then Some(Rec(epoch, contentType, payload, |payload| + answer.value)) else None
  }

  datatype SealedOne = SealedOne(ret: SealResult, rec: Rec, off: nat)

  const NO_REC := Rec(0, 0, [], 0)

  /** How much of the message body goes into the next fragment. */
  function Todo(left: nat, c: Cipher, maxOut: nat): nat {
    var room := maxOut - DTLS1_HM_HEADER_LENGTH - c.overhead;
    if room < 0 then 0 else if left > room then room else left
  }

  /** There is an item at `p`, a message of at least that length if it is one. */
  predicate AtItem(flight: seq<OutMsg>, p: Pos) {
    && p.msg < |flight|
    && (!flight[p.msg].isCcs ==> MessageOf(flight[p.msg].data).Some? && p.off <= BodyLen(flight[p.msg]))
  }

  /** seal_next_message at position `p`. */
  function SealOne(flight: seq<OutMsg>, p: Pos, keys: Keys, maxOut: nat, answer: Option<nat>): (one: SealedOne)
    requires AtItem(flight, p)
    ensures one.ret == SealSuccess || one.ret == SealPartial ==> one.rec.size <= maxOut
  {
    var o := flight[p.msg];
    match CipherOf(o, keys)
    case None => SealedOne(SealError, NO_REC, p.off)
    case Some(c) =>
      if o.isCcs then
        if maxOut < 1 + c.overhead then SealedOne(NoProgress, NO_REC, p.off)
        else
          match Sealed(o.epoch, SSL3_RT_CHANGE_CIPHER_SPEC, [SSL3_MT_CCS], c, answer)
          case None => SealedOne(SealError, NO_REC, p.off)
          case Some(rec) => SealedOne(SealSuccess, rec, p.off)
      else if maxOut < DTLS1_HM_HEADER_LENGTH + 1 + c.overhead || maxOut < c.prefix
      then SealedOne(NoProgress, NO_REC, p.off)
      else
        var m := MessageOf(o.data).value;
        var todo := Todo(|m.body| - p.off, c, maxOut);
        if DTLS1_HM_HEADER_LENGTH + todo > maxOut - c.prefix then SealedOne(SealError, NO_REC, p.off)
        else
          match Sealed(o.epoch, SSL3_RT_HANDSHAKE, Slice(m, p.off, todo), c, answer)
          case None => SealedOne(SealError, NO_REC, p.off)
          case Some(rec) =>
            if p.off + todo == |m.body| then SealedOne(SealSuccess, rec, 0)
            else SealedOne(SealPartial, rec, p.off + todo)
  }

  datatype SealedMany = SealedMany(ret: Packed, packet: seq<Rec>, p: Pos)

  predicate Parses(flight: seq<OutMsg>) {
    forall i :: 0 <= i < |flight| && !flight[i].isCcs ==> MessageOf(flight[i].data).Some?
  }

  /** seal_next_packet from position `p`, when `packet` is sealed already and `maxLeft`
      bytes are left; `answers` are those of the cipher. */
  function SealMany(flight: seq<OutMsg>, p: Pos, keys: Keys, maxLeft: nat,
      answers: seq<Option<nat>>, packet: seq<Rec>): SealedMany
    requires Parses(flight) && (p.msg < |flight| ==> AtItem(flight, p))
    decreases |flight| - p.msg
  {
    var end := if packet == [] then MtuTooSmall else PacketOk;
    if p.msg >= |flight| then SealedMany(end, packet, p)
    else
      var one := SealOne(flight, p, keys, maxLeft, if answers == [] then None else answers[0]);
      match one.ret
      case SealError => SealedMany(PacketSealError, packet, p)
      case NoProgress => SealedMany(end, packet, p)
      case SealPartial => SealedMany(PacketOk, packet + [one.rec], Pos(p.msg, one.off))
      case SealSuccess =>
        SealMany(flight, Pos(p.msg + 1, 0), keys, maxLeft - one.rec.size,
                 if answers == [] then [] else answers[1..], packet + [one.rec])
  }

  /** What the sealing of a packet came to. */
  datatype Packed = PacketOk | PacketSealError | MtuTooSmall

  /** A handshake record carries a slice of one of the messages queued. */
  ghost predicate Genuine(queued: seq<Message>, rec: Rec) {
    rec.contentType == SSL3_RT_HANDSHAKE ==>
      exists i: nat, off: nat, len: nat :: IsSlice(queued, rec.payload, i, off, len)
  }

  ghost predicate IsSlice(queued: seq<Message>, payload: seq<byte>, i: nat, off: nat, len: nat) {
    i < |queued| && off + len <= |queued[i].body| && payload == Slice(queued[i], off, len)
  }

  lemma GenuineMore(queued: seq<Message>, more: seq<Message>, rec: Rec)
    requires Genuine(queued, rec)
    ensures Genuine(queued + more, rec)
  {
    if rec.contentType == SSL3_RT_HANDSHAKE {
      var i: nat, off: nat, len: nat :| IsSlice(queued, rec.payload, i, off, len);
      assert IsSlice(queued + more, rec.payload, i, off, len);
    }
  }

  ghost predicate AllGenuine(queued: seq<Message>, recs: seq<Rec>) {
    forall i :: 0 <= i < |recs| ==> Genuine(queued, recs[i])
  }

  lemma FixedUp(t: byte, z: seq<byte>, n: seq<byte>, o: seq<byte>, l: seq<byte>, body: seq<byte>)
    requires |z| == |o| == |l| == 3 && |n| == 2
    ensures var msg := [t] + z + (n + o + l + body);
            msg[..1] + msg[9..12] + msg[4..] == [t] + l + n + o + l + body[0..|body|]
  {
    var tail := n + o + l + body;
    var msg := [t] + z + tail;
    assert msg[4..] == tail && msg[9..12] == tail[5..8] == l && msg[..1] == [t];
    assert body[0..|body|] == body;
  }

  /** A packet the transport took, and the MTU it was cut for. */
  datatype Packet = Packet(recs: seq<Rec>, mtu: nat)

  /** The records of the packets, back to back. */
  function Concat(packets: seq<Packet>): seq<Rec> {
    if packets == [] then [] else Concat(packets[..|packets| - 1]) + packets[|packets| - 1].recs
  }

  ghost predicate WithinMtu(packets: seq<Packet>) {
    forall i :: 0 <= i < |packets| ==> packets[i].recs != [] && Size(packets[i].recs) <= packets[i].mtu
  }

  lemma PacketsGrow(packets: seq<Packet>, p: Packet)
    requires WithinMtu(packets) && p.recs != [] && Size(p.recs) <= p.mtu
    ensures Concat(packets + [p]) == Concat(packets) + p.recs && WithinMtu(packets + [p])
  {
    hide Size;
    assert (packets + [p])[..|packets|] == packets;
  }

  /** Everything written is genuine, in packets within their MTU. */
  ghost predicate Accounted(queued: seq<Message>, packets: seq<Packet>, sent: seq<Rec>) {
    AllGenuine(queued, sent) && sent == Concat(packets) && WithinMtu(packets)
  }

  lemma AccountGrows(queued: seq<Message>, packets: seq<Packet>, sent: seq<Rec>, p: Packet)
    requires Accounted(queued, packets, sent) && AllGenuine(queued, p.recs) && p.recs != [] && Size(p.recs) <= p.mtu
    ensures Accounted(queued, packets + [p], sent + p.recs)
  {
    PacketsGrow(packets, p);
    hide Genuine, WithinMtu, Concat;
  }

  lemma AccountKept(queued: seq<Message>, packets: seq<Packet>, sent: seq<Rec>, m: Message)
    requires Accounted(queued, packets, sent)
    ensures Accounted(queued + [m], packets, sent)
  {
    hide WithinMtu, Concat;
    forall i | 0 <= i < |sent| ensures Genuine(queued + [m], sent[i]) {
      GenuineMore(queued, [m], sent[i]);
    }
  }

  lemma SealManyStep(flight: seq<OutMsg>, p: Pos, keys: Keys, maxLeft: nat, answers: seq<Option<nat>>, packet: seq<Rec>)
    requires Parses(flight) && (p.msg < |flight| ==> AtItem(flight, p))
    ensures var end := if packet == [] then MtuTooSmall else PacketOk;
            SealMany(flight, p, keys, maxLeft, answers, packet) ==
            if p.msg >= |flight| then SealedMany(end, packet, p)
            else
              var one := SealOne(flight, p, keys, maxLeft, if answers == [] then None else answers[0]);
              match one.ret
              case SealError => SealedMany(PacketSealError, packet, p)
              case NoProgress => SealedMany(end, packet, p)
              case SealPartial => SealedMany(PacketOk, packet + [one.rec], Pos(p.msg, one.off))
              case SealSuccess =>
                SealMany(flight, Pos(p.msg + 1, 0), keys, maxLeft - one.rec.size,
                         if answers == [] then [] else answers[1..], packet + [one.rec])
  {
    hide SealOne;
  }

  /** Two messages with room for both in one packet: when the second one cannot be sealed
      the first is lost, and the next packet, which can be, leaves a gap. */
  lemma HalfSealedPacket() returns (flight: seq<OutMsg>, keys: Keys, next: seq<Rec>)
    ensures Parses(flight) && |flight| == 2 && AtItem(flight, Pos(0, 0)) && AtItem(flight, Pos(1, 0))
    ensures var first := SealMany(flight, Pos(0, 0), keys, DEFAULT_MTU, [Some(0)], []);
            first.ret == PacketSealError && |first.packet| == 1 && first.p == Pos(1, 0)
    ensures SealMany(flight, Pos(1, 0), keys, DEFAULT_MTU, [Some(0)], []) == SealedMany(PacketOk, next, Pos(2, 0))
    ensures Walk(flight, Pos(0, 0), next) == None
  {
    var m0, m1 := Message(1, 0, [0]), Message(2, 1, [0]);
    MessageOfRaw(m0);
    MessageOfRaw(m1);
    var o0, o1 := OutMsg(Raw(m0), 0, false), OutMsg(Raw(m1), 0, false);
    flight, keys := [o0, o1], Keys(0, Cipher(13, 13), Cipher(13, 13));
    hide MessageOf, SealMany, SealOne, Advance, Raw;
    var rec0, rec1 := Rec(0, SSL3_RT_HANDSHAKE, Slice(m0, 0, 1), 13), Rec(0, SSL3_RT_HANDSHAKE, Slice(m1, 0, 1), 13);
    OneByteSealed(flight, 0, keys, m0);
    OneByteSealed(flight, 1, keys, m1);
    NotSealed(flight, 1, keys, DEFAULT_MTU - 13);
    SealManyStep(flight, Pos(0, 0), keys, DEFAULT_MTU, [Some(0)], []);
    SealManyStep(flight, Pos(1, 0), keys, DEFAULT_MTU - 13, [], [rec0]);
    SealManyStep(flight, Pos(1, 0), keys, DEFAULT_MTU, [Some(0)], []);
    SealManyStep(flight, Pos(2, 0), keys, DEFAULT_MTU - 13, [], [rec1]);
    next := [rec1];
    assert [] + [rec0] == [rec0] && [] + [rec1] == next && [Some(0)][1..] == [];
    assert next[..0] == [];
    OtherMessage(flight, m0, m1, rec1);
  }

  /** A message of one byte goes into one record. */
  lemma OneByteSealed(flight: seq<OutMsg>, i: nat, keys: Keys, m: Message)
    requires i < |flight| && flight[i] == OutMsg(flight[i].data, 0, false)
    requires keys == Keys(0, Cipher(13, 13), Cipher(13, 13))
    requires MessageOf(flight[i].data) == Some(m) && |m.body| == 1
    ensures SealOne(flight, Pos(i, 0), keys, DEFAULT_MTU, Some(0))
         == SealedOne(SealSuccess, Rec(0, SSL3_RT_HANDSHAKE, Slice(m, 0, 1), 13), 0)
  {
    hide MessageOf, Slice;
  }

  lemma NotSealed(flight: seq<OutMsg>, i: nat, keys: Keys, maxOut: nat)
    requires AtItem(flight, Pos(i, 0)) && !flight[i].isCcs && keys == Keys(0, Cipher(13, 13), Cipher(13, 13))
    requires flight[i].epoch == 0 && maxOut >= 26
    ensures SealOne(flight, Pos(i, 0), keys, maxOut, None).ret == SealError
  {
    hide MessageOf, Slice;
  }

  lemma OtherMessage(flight: seq<OutMsg>, m0: Message, m1: Message, rec: Rec)
    requires flight != [] && !flight[0].isCcs && MessageOf(flight[0].data) == Some(m0) && m0.msgType != m1.msgType
    requires |m0.body| == |m1.body| == 1 && rec.payload == Slice(m1, 0, 1)
    ensures Advance(flight, Pos(0, 0), rec) == None
  {
    hide MessageOf;
    assert Slice(m0, 0, 1)[0] == m0.msgType && Slice(m1, 0, 1)[0] == m1.msgType;
  }

  class Sender {
    var wEpoch: nat
    var current: Cipher
    var previous: Cipher
    var handshakeWriteSeq: nat
    var outgoing: seq<OutMsg>
    var outgoingWritten: nat
    var outgoingOffset: nat
    var outgoingComplete: bool
    var mtu: nat
    /** All messages ever queued, and all packets and records ever written. */
    ghost var Queued: seq<Message>
    ghost var Packets: seq<Packet>
    ghost var Sent: seq<Rec>
    /** The records written since the flight, or its retransmission, began; and
        whether sealing has succeeded all that time. */
    ghost var Written: seq<Rec>
    ghost var Unbroken: bool

    ghost predicate Valid()
      reads this
    {
      && |outgoing| <= FLIGHT && handshakeWriteSeq == |Queued| && AtPos(At())
      && (forall i :: 0 <= i < |Queued| ==> Queued[i].msgSeq == i && Sendable(Queued[i]))
      && (forall i :: 0 <= i < |outgoing| && !outgoing[i].isCcs ==> InQueue(outgoing[i]))
      && Accounted(Queued, Packets, Sent)
      && if Unbroken then Walk(outgoing, Pos(0, 0), Written) == Some(At()) else Lags(outgoing, Written, At())
    }

    /** The records written continue the flight up to the position if and only if no
        packet has failed half-way since the flight, or its retransmission, began. */
    lemma UnbrokenExact()
      requires Valid()
      ensures Unbroken <==> Walk(outgoing, Pos(0, 0), Written) == Some(At())
    {
      hide Advance, AtPos, InQueue, Accounted;
      if !Unbroken && Fell(outgoing, Written) {
        FellIsNone(outgoing, Written);
      }
    }

    /** What sealing needs; `Valid` without the account of what was written. */
    ghost predicate Ready()
      reads this
    {
      && AtPos(At())
      && (forall i :: 0 <= i < |Queued| ==> Queued[i].msgSeq == i)
      && forall i :: 0 <= i < |outgoing| && !outgoing[i].isCcs ==> InQueue(outgoing[i])
    }

    ghost predicate InQueue(o: OutMsg)
      reads `Queued
    {
      MessageOf(o.data).Some? && MessageOf(o.data).value in Queued
    }

    ghost function At(): Pos
      reads this
    {
      Pos(outgoingWritten, outgoingOffset)
    }

    ghost predicate AtPos(p: Pos)
      reads `outgoing
      ensures AtPos(p) ==> Left(p) >= 0
    {
      if p.msg < |outgoing| then p.off == 0 || p.off < BodyLen(outgoing[p.msg]) else p == Pos(|outgoing|, 0)
    }

    constructor ()
      ensures Valid() && Queued == [] && Sent == [] && outgoing == [] && Unbroken
    {
      wEpoch, current, previous := 0, Cipher(13, 13), Cipher(13, 13);
      handshakeWriteSeq, outgoing, outgoingWritten, outgoingOffset, outgoingComplete, mtu := 0, [], 0, 0, false, 0;
      Queued, Packets, Sent, Written, Unbroken := [], [], [], [], true;
    }

    /** dtls1_init_message and dtls1_finish_message; the sequence number has 16
        bits, and a body that does not fit its 24-bit length is an error. */
    method FinishMessage(msgType: byte, body: seq<byte>) returns (data: Option<seq<byte>>)
      requires Valid() && handshakeWriteSeq < TWO16
      ensures data.Some? <==> |body| < TWO24
      ensures data.Some? ==> data.value == Raw(Message(msgType, handshakeWriteSeq, body))
    {
      if |body| >= TWO24 {
        return None;
      }
      var length := Encode(|body|, 3);
      var msg := [msgType] + Encode(0, 3) + (Encode(handshakeWriteSeq, 2) + Encode(0, 3) + length + body);
      // The fragment length becomes the message length too.
      FixedUp(msgType, Encode(0, 3), Encode(handshakeWriteSeq, 2), Encode(0, 3), length, body);
      return Some(msg[..1] + msg[9..12] + msg[4..]);
    }

    /** dtls_clear_outgoing_messages. */
    method ClearOutgoing()
      requires Valid()
      modifies this
      ensures Valid() && outgoing == [] && At() == Pos(0, 0) && !outgoingComplete && Unbroken && Written == []
      ensures Queued == old(Queued) && Sent == old(Sent) && Packets == old(Packets) && mtu == old(mtu)
      ensures NowKeys() == old(NowKeys())
    {
      hide MessageOf, Accounted, BodyLen, Advance, Lags;
      outgoing, outgoingWritten, outgoingOffset, outgoingComplete := [], 0, 0, false;
      Written, Unbroken := [], true;
    }

    /** add_outgoing; `message` says what `data` serializes. */
    method AddOutgoing(isCcs: bool, data: seq<byte>, ghost message: Message) returns (ok: bool)
      requires Valid()
      requires !isCcs ==> Sendable(message) && message.msgSeq == handshakeWriteSeq && data == Raw(message)
      modifies this
      ensures Valid() && Sent == old(Sent) && wEpoch == old(wEpoch) && !outgoingComplete
      ensures var flight := if old(outgoingComplete) then [] else old(outgoing);
              && (ok <==> |flight| < FLIGHT && |data| < TWO32)
              && outgoing == (if ok then flight + [OutMsg(data, wEpoch, isCcs)] else flight)
              && Queued == (if ok && !isCcs then old(Queued) + [message] else old(Queued))
      ensures NowKeys() == old(NowKeys()) && mtu == old(mtu) && Packets == old(Packets)
      ensures if old(outgoingComplete) then At() == Pos(0, 0) && Written == [] && Unbroken
              else At() == old(At()) && Written == old(Written) && Unbroken == old(Unbroken)
    {
      hide MessageOf, Accounted, BodyLen, Advance, Lags, Walk, Raw;
      if outgoingComplete {
        ClearOutgoing();
      }
      if |outgoing| >= FLIGHT || |data| >= TWO32 {
        return false;
      }
      if !isCcs {
        MessageOfRaw(message);
        Enqueue(message);
      }
      Append(OutMsg(data, wEpoch, isCcs));
      return true;
    }

    method Enqueue(ghost message: Message)
      requires Valid() && Sendable(message) && message.msgSeq == handshakeWriteSeq
      modifies `handshakeWriteSeq, `Queued
      ensures Valid() && Queued == old(Queued) + [message]
    {
      hide MessageOf, Walk, BodyLen, Accounted, Lags;
      AccountKept(Queued, Packets, Sent, message);
      handshakeWriteSeq := handshakeWriteSeq + 1;
      Queued := Queued + [message];
      forall i | 0 <= i < |outgoing| && !outgoing[i].isCcs ensures InQueue(outgoing[i]) {
        assert old(InQueue(outgoing[i]));
      }
    }

    method Append(o: OutMsg)
      requires Valid() && |outgoing| < FLIGHT && (!o.isCcs ==> InQueue(o))
      modifies `outgoing
      ensures Valid() && outgoing == old(outgoing) + [o]
    {
      hide MessageOf, Accounted, BodyLen;
      if Unbroken {
        WalkExtends(outgoing, [o], Pos(0, 0), Written);
      } else {
        LagsExtends(outgoing, o, Written, At());
      }
      hide Walk, Lags;
      outgoing := outgoing + [o];
      forall i | 0 <= i < |outgoing| && !outgoing[i].isCcs ensures InQueue(outgoing[i]) {
        assert i < |old(outgoing)| ==> old(InQueue(outgoing[i]));
      }
    }

    /** dtls1_set_write_state, as far as the flight is concerned. */
    method SetWriteState(cipher: Cipher)
      requires Valid()
      modifies `wEpoch, `current, `previous
      ensures Valid() && wEpoch == old(wEpoch) + 1 && current == cipher && previous == old(current)
      ensures forall o :: CipherFor(o) == if o.epoch == old(wEpoch) then Some(old(current))
                                          else if o.epoch == old(wEpoch) + 1 then Some(cipher) else None
    {
      wEpoch, previous, current := wEpoch + 1, current, cipher;
    }

    function NowKeys(): Keys
      reads this
    {
      Keys(wEpoch, current, previous)
    }

    /** The cipher an item of the flight is sealed with. */
    function CipherFor(o: OutMsg): Option<Cipher>
      reads this
    {
      CipherOf(o, NowKeys())
    }

    predicate TooSmall(o: OutMsg, maxOut: nat)
      reads this
    {
      match CipherFor(o)
      case None => false
      case Some(c) =>
        if o.isCcs then maxOut < 1 + c.overhead
        else maxOut < DTLS1_HM_HEADER_LENGTH + 1 + c.overhead || maxOut < c.prefix
    }

    /** seal_next_message; `answer` is what the cipher does. */
    method SealNextMessage(maxOut: nat, answer: Option<nat>) returns (ret: SealResult, rec: Rec)
      requires Ready() && outgoingWritten < |outgoing|
      modifies `outgoingOffset
      ensures AtItem(outgoing, old(At()))
      ensures SealedOne(ret, rec, outgoingOffset) == SealOne(outgoing, old(At()), NowKeys(), maxOut, answer)
    {
      hide MessageOf, Slice;
      var msg := outgoing[outgoingWritten];
      rec := NO_REC;
      var c := CipherFor(msg);
      assert !msg.isCcs ==> InQueue(msg);
      if c.None? {
        return SealError, rec;
      }
      if msg.isCcs {
        if maxOut < 1 + c.value.overhead {
          return NoProgress, rec;
        }
        var sealed := Sealed(msg.epoch, SSL3_RT_CHANGE_CIPHER_SPEC, [SSL3_MT_CCS], c.value, answer);
        if sealed.None? {
          return SealError, rec;
        }
        return SealSuccess, sealed.value;
      }
      var m := MessageOf(msg.data).value;
      if maxOut < DTLS1_HM_HEADER_LENGTH + 1 + c.value.overhead || maxOut < c.value.prefix {
        return NoProgress, rec;
      }
      var left := |m.body| - outgoingOffset;
      var todo := left;
      if todo > maxOut - DTLS1_HM_HEADER_LENGTH - c.value.overhead {
        todo := maxOut - DTLS1_HM_HEADER_LENGTH - c.value.overhead;
      }
      if DTLS1_HM_HEADER_LENGTH + todo > maxOut - c.value.prefix {
        return SealError, rec;
      }
      var sealed := Sealed(msg.epoch, SSL3_RT_HANDSHAKE, Slice(m, outgoingOffset, todo), c.value, answer);
      if sealed.None? {
        return SealError, rec;
      }
      rec := sealed.value;
      if todo == left {
        outgoingOffset := 0;
        return SealSuccess, rec;
      }
      outgoingOffset := outgoingOffset + todo;
      return SealPartial, rec;
    }

    /** What sealing one item does: the next slice of the message at the position, within
        the room left, or nothing. */
    lemma SealOneNext(p: Pos, maxOut: nat, answer: Option<nat>)
      requires Ready() && p == At() && p.msg < |outgoing|
      ensures AtItem(outgoing, p)
      ensures var one := SealOne(outgoing, p, NowKeys(), maxOut, answer);
              && (one.ret == NoProgress <==> TooSmall(outgoing[p.msg], maxOut))
              && (one.ret == SealError || one.ret == NoProgress ==> one.off == p.off)
              && (one.ret == SealSuccess || one.ret == SealPartial ==> Genuine(Queued, one.rec))
              && (one.ret == SealSuccess ==> one.off == 0 && Advance(outgoing, p, one.rec) == Some(Pos(p.msg + 1, 0)))
              && (one.ret == SealPartial ==>
                    Advance(outgoing, p, one.rec) == Some(Pos(p.msg, one.off)) && AtPos(Pos(p.msg, one.off)))
              && (one.ret == SealPartial ==>
                    one.off > 0 && |one.rec.payload| + CipherFor(outgoing[p.msg]).value.overhead == maxOut)
              && (CipherFor(outgoing[p.msg]).None? || (one.ret != NoProgress && answer.None?) ==> one.ret == SealError)
    {
      hide MessageOf, Slice;
      var msg := outgoing[p.msg];
      if !msg.isCcs {
        assert InQueue(msg);
        var m := MessageOf(msg.data).value;
        var one := SealOne(outgoing, p, NowKeys(), maxOut, answer);
        if one.ret == SealSuccess || one.ret == SealPartial {
          var todo := Todo(|m.body| - p.off, CipherFor(msg).value, maxOut);
          assert IsSlice(Queued, one.rec.payload, m.msgSeq, p.off, todo);
        }
      }
    }

    /** Sealing fails exactly when there is no cipher for the epoch, or, with enough room, when
        the cipher fails or its prefix leaves too little of that room for the fragment. */
    lemma SealOneFails(p: Pos, maxOut: nat, answer: Option<nat>)
      requires Ready() && p == At() && p.msg < |outgoing|
      ensures AtItem(outgoing, p)
      ensures var o, c := outgoing[p.msg], CipherFor(outgoing[p.msg]);
              SealOne(outgoing, p, NowKeys(), maxOut, answer).ret == SealError <==>
                || c.None?
                || (!TooSmall(o, maxOut) &&
                      (|| answer.None? || answer.value > c.value.overhead
                       || (!o.isCcs && c.value.overhead < c.value.prefix
                           && 12 + BodyLen(o) - p.off > maxOut - c.value.prefix)))
    {
      hide MessageOf, Slice;
      if !outgoing[p.msg].isCcs {
        assert InQueue(outgoing[p.msg]);
      }
    }

    /** seal_next_packet.  `packet` is what was sealed, even on an error; then the
        position has moved past it although nothing will be written. */
    method SealNextPacket(maxOut: nat, answers: seq<Option<nat>>) returns (ret: Packed, packet: seq<Rec>)
      requires Ready() && outgoingWritten < |outgoing|
      modifies `outgoingWritten, `outgoingOffset
      ensures Parses(outgoing) && AtItem(outgoing, old(At()))
      ensures SealedMany(ret, packet, At()) == SealMany(outgoing, old(At()), NowKeys(), maxOut, answers, [])
      ensures Ready() && Walk(outgoing, old(At()), packet) == Some(At())
      ensures Size(packet) <= maxOut && AllGenuine(Queued, packet)
      ensures ret == PacketOk ==> packet != []
      ensures ret == MtuTooSmall ==> packet == [] && TooSmall(outgoing[outgoingWritten], maxOut)
      ensures ret == PacketOk && outgoingWritten < |outgoing| ==>
                outgoingOffset > 0 || TooSmall(outgoing[outgoingWritten], maxOut - Size(packet))
    {
      hide Advance, MessageOf, Genuine, TooSmall, SealOne, SealMany, Walk, Size, BodyLen, InQueue, AllGenuine;
      ghost var start := At();
      AllParse();
      StartPacket(start);
      SealOneNext(At(), maxOut, None);
      ghost var spec := SealMany(outgoing, start, NowKeys(), maxOut, answers, []);
      var maxLeft: nat, left := maxOut, answers;
      packet := [];
      while outgoingWritten < |outgoing|
        invariant Ready() && Walk(outgoing, start, packet) == Some(At())
        invariant Size(packet) + maxLeft == maxOut && AllGenuine(Queued, packet)
        invariant packet == [] ==> outgoingWritten < |outgoing|
        invariant outgoingWritten < |outgoing| ==> AtItem(outgoing, At())
        invariant spec == SealMany(outgoing, At(), NowKeys(), maxLeft, left, packet)
        decreases |outgoing| - outgoingWritten
      {
        ghost var before := At();
        var answer := if left == [] then None else left[0];
        SealManyStep(outgoing, before, NowKeys(), maxLeft, left, packet);
        SealOneNext(before, maxLeft, answer);
        var sealed, rec := SealNextMessage(maxLeft, answer);
        if sealed == SealError {
          return PacketSealError, packet;
        }
        if sealed == NoProgress {
          break;
        }
        WalkStep(outgoing, start, packet, rec);
        PacketStep(packet, rec);
        packet := packet + [rec];
        maxLeft := maxLeft - rec.size;
        left := if left == [] then [] else left[1..];
        if sealed == SealPartial {
          return PacketOk, packet;
        }
        outgoingWritten := outgoingWritten + 1;
        if outgoingWritten < |outgoing| {
          SealOneNext(At(), 0, None);
        }
      }
      SealManyStep(outgoing, At(), NowKeys(), maxLeft, left, packet);
      ret := if packet == [] then MtuTooSmall else PacketOk;
    }

    lemma StartPacket(p: Pos)
      ensures Walk(outgoing, p, []) == Some(p) && Size([]) == 0 && AllGenuine(Queued, [])
    {
    }

    lemma PacketStep(packet: seq<Rec>, rec: Rec)
      ensures Size(packet + [rec]) == Size(packet) + rec.size
      ensures AllGenuine(Queued, packet) && Genuine(Queued, rec) ==> AllGenuine(Queued, packet + [rec])
    {
      hide Genuine;
      assert (packet + [rec])[..|packet|] == packet;
    }

    lemma AllParse()
      requires Ready()
      ensures Parses(outgoing)
    {
      hide MessageOf;
      forall i | 0 <= i < |outgoing| && !outgoing[i].isCcs ensures MessageOf(outgoing[i].data).Some? {
        assert InQueue(outgoing[i]);
      }
    }

    /** dtls1_update_mtu; `queried` is what the transport answers. */
    method UpdateMtu(noQuery: bool, queried: int)
      requires mtu >= MIN_MTU || !noQuery
      modifies `mtu
      ensures mtu >= MIN_MTU
      ensures mtu == if old(mtu) >= 228 then old(mtu) else if 228 <= queried <= 0x4000_0000 then queried else 1472
    {
      if mtu < MIN_MTU && !noQuery {
        mtu := if 0 <= queried <= 0x4000_0000 && queried >= MIN_MTU then queried else DEFAULT_MTU;
      }
    }

    /** One turn of the loop of send_flight: a packet is written, or refused and
        to be sealed again next time, perhaps at another MTU.  When sealing itself
        fails the position is not restored: `packet` will not be written. */
    method SendPacket() returns (bioRet: int, packed: Packed, packet: seq<Rec>)
      requires Valid() && outgoingWritten < |outgoing|
      modifies `outgoingWritten, `outgoingOffset, `Packets, `Sent, `Written, `Unbroken
      ensures Valid() && Walk(outgoing, old(At()), packet).Some?
      ensures packed != PacketOk ==> At() == Walk(outgoing, old(At()), packet).value && Sent == old(Sent)
      ensures packed != PacketOk ==> (Unbroken <==> old(Unbroken) && packet == [])
      ensures packed == MtuTooSmall ==> packet == [] && TooSmall(outgoing[outgoingWritten], mtu)
      ensures packed == PacketOk && bioRet <= 0 ==> At() == old(At()) && Sent == old(Sent) && Unbroken == old(Unbroken)
      ensures packed == PacketOk && bioRet > 0 ==>
                && At() == Walk(outgoing, old(At()), packet).value && Before(old(At()), At())
                && Sent == old(Sent) + packet && Unbroken == old(Unbroken)
      ensures Packets == old(Packets) || Packets == old(Packets) + [Packet(packet, mtu)]
    {
      hide Advance, MessageOf, TooSmall, BodyLen, Accounted, AllGenuine, Size, Lags, SealMany, Parses, AtItem;
      ghost var from := At();
      var oldWritten, oldOffset := outgoingWritten, outgoingOffset;
      var answers: seq<Option<nat>> := *;
      packed, packet := SealNextPacket(mtu, answers);
      bioRet := 0;
      if packed != PacketOk {
        if packet == [] {
          assert Walk(outgoing, from, []) == Some(from);
        } else {
          LagsBehind(outgoing, Written, from, packet);
          Unbroken := false;
        }
        return;
      }
      bioRet := *;
      if bioRet <= 0 {
        // Retry this packet the next time around.
        outgoingWritten, outgoingOffset := oldWritten, oldOffset;
        return;
      }
      WalkForward(outgoing, from, packet);
      AccountGrows(Queued, Packets, Sent, Packet(packet, mtu));
      if Unbroken {
        WalkAppend(outgoing, Pos(0, 0), Written, packet);
      } else {
        LagsOn(outgoing, Written, from, packet);
      }
      Packets, Sent, Written := Packets + [Packet(packet, mtu)], Sent + packet, Written + packet;
    }

    /** send_flight.  `lost` was sealed in a packet that failed half-way. */
    method SendFlight(shutdown: bool, noQuery: bool, queried: int) returns (ret: int, lost: seq<Rec>)
      requires Valid() && (mtu >= MIN_MTU || !noQuery)
      modifies `outgoingWritten, `outgoingOffset, `mtu, `Packets, `Sent, `Written, `Unbroken
      ensures Valid() && old(Sent) <= Sent
      ensures ret == 1 ==> lost == [] && outgoingWritten == |outgoing|
      ensures Unbroken <==> old(Unbroken) && lost == []
      ensures shutdown ==> ret == -1 && Sent == old(Sent) && lost == [] && At() == old(At())
      ensures var sent := Sent[|old(Sent)|..];
              && Walk(outgoing, old(At()), sent).Some?
              && Walk(outgoing, Walk(outgoing, old(At()), sent).value, lost) == Some(At())
    {
      hide Advance, MessageOf, TooSmall, BodyLen, Accounted, Lags;
      lost := [];
      ghost var sent: seq<Rec> := [];
      ghost var start := At();
      assert Sent == old(Sent) + sent && Sent[|old(Sent)|..] == sent;
      if shutdown {
        return -1, lost;
      }
      UpdateMtu(noQuery, queried);
      while outgoingWritten < |outgoing|
        invariant Valid() && Unbroken == old(Unbroken) && Sent == old(Sent) + sent && Sent[|old(Sent)|..] == sent
        invariant Walk(outgoing, start, sent) == Some(At())
        decreases |outgoing| - outgoingWritten, Left(At())
      {
        var bioRet, packed, packet := SendPacket();
        if packed != PacketOk {
          return -1, packet;
        }
        if bioRet <= 0 {
          return bioRet, lost;
        }
        WalkAppend(outgoing, start, sent, packet);
        sent := sent + packet;
      }
      var flushed: int := *;
      ret := if flushed <= 0 then -1 else 1;
    }

    /** The bytes of the current message still to be sent. */
    ghost function Left(p: Pos): int
      reads `outgoing
    {
      if p.msg < |outgoing| then BodyLen(outgoing[p.msg]) - p.off else 0
    }

    /** dtls1_flush_flight. */
    method FlushFlight(shutdown: bool, noQuery: bool, queried: int) returns (ret: int, lost: seq<Rec>)
      requires Valid() && (mtu >= MIN_MTU || !noQuery)
      modifies this
      ensures Valid() && outgoingComplete && old(Sent) <= Sent && outgoing == old(outgoing) && Queued == old(Queued)
      ensures ret == 1 ==> lost == [] && outgoingWritten == |outgoing|
      ensures Unbroken <==> old(Unbroken) && lost == []
    {
      outgoingComplete := true;
      ret, lost := SendFlight(shutdown, noQuery, queried);
    }

    /** dtls1_retransmit_outgoing_messages. */
    method Retransmit(shutdown: bool, noQuery: bool, queried: int) returns (ret: int, lost: seq<Rec>)
      requires Valid() && (mtu >= MIN_MTU || !noQuery)
      modifies this
      ensures Valid() && old(Sent) <= Sent && outgoing == old(outgoing) && Queued == old(Queued)
      ensures ret == 1 ==> lost == [] && outgoingWritten == |outgoing|
      ensures Unbroken <==> lost == []
    {
      outgoingWritten, outgoingOffset := 0, 0;
      Written, Unbroken := [], true;
      ret, lost := SendFlight(shutdown, noQuery, queried);
    }
  }
}
