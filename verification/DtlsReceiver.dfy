/** Receiving DTLS handshake messages (d1_both.cc, dtls_method.cc): a ring of
    seven messages being assembled, and the epoch changes between them. */
module DtlsReceiver {
  import opened Bytes
  import opened Options
  import opened DtlsFragment
  import opened Reassembly

  /** SSL_MAX_HANDSHAKE_FLIGHT. */
  const FLIGHT := 7

  const SSL3_RT_CHANGE_CIPHER_SPEC := 20
  const SSL3_RT_HANDSHAKE := 22
  const SSL3_RT_APPLICATION_DATA := 23
  const SSL3_MT_CCS := 1

  datatype Alert = UnexpectedMessage | IllegalParameter | DecodeError | InternalError

  datatype Opened = Success | Discard | Error(alert: Alert)

  /** `epoch` is the read epoch, `nullCipher` whether it is unencrypted. */
  datatype Recv = Recv(readSeq: nat,
      ring: seq<Option<Partial>>, hasMessage: bool, hasCcs: bool, epoch: nat, nullCipher: bool)

  ghost predicate RingOk(r: Recv) {
    && |r.ring| == FLIGHT
    && forall i :: 0 <= i < FLIGHT && r.ring[i].Some? ==> SlotOk(r, i, r.ring[i].value)
  }

  /** Slot `i` holds the one message of the window that belongs there. */
  ghost predicate SlotOk(r: Recv, i: nat, p: Partial) {
    && p.msgSeq % FLIGHT == i && r.readSeq <= p.msgSeq < r.readSeq + FLIGHT
    && forall k :: k in p.bytes ==> k < p.msgLen
  }

  ghost predicate CurrentComplete(r: Recv)
    requires |r.ring| == FLIGHT
  {
    r.ring[r.readSeq % FLIGHT].Some? && Complete(r.ring[r.readSeq % FLIGHT].value)
  }

  // -- What each operation does ------------------------------------------------------------

  function Fresh(h: Header): Partial {
    Partial(h.msgType, h.msgSeq, h.msgLen, map[], {})
  }

  /** dtls1_get_incoming_message, for a sequence number the filter let through:
      the message the fragment belongs to. */
  ghost function Incoming(r: Recv, h: Header): Option<Partial>
    requires |r.ring| == FLIGHT
  {
    if h.msgSeq < r.readSeq || h.msgSeq - r.readSeq >= FLIGHT then None
    else
      match r.ring[h.msgSeq % FLIGHT]
      case None => Some(Fresh(h))
      case Some(p) => if p.msgType != h.msgType || p.msgLen != h.msgLen then None else Some(p)
  }

  function IncomingAlert(r: Recv, h: Header): Alert {
    if h.msgSeq < r.readSeq || h.msgSeq - r.readSeq >= FLIGHT then InternalError else IllegalParameter
  }

  /** The checks of dtls1_open_handshake before a fragment is looked up. */
  function Refused(r: Recv, h: Header, maxLen: nat): Option<Alert> {
    if h.fragOff > h.msgLen || h.fragOff + h.fragLen > h.msgLen || h.msgLen > maxLen then Some(IllegalParameter)
    else if r.epoch == 1 && h.msgSeq != r.readSeq then Some(UnexpectedMessage)
    else None
  }

  /** Fragments from the past, or too far in the future; the one just past the
      ring gets through here. */
  predicate Ignored(r: Recv, h: Header) {
    h.msgSeq < r.readSeq || h.msgSeq > r.readSeq + FLIGHT
  }

  /** One turn of the loop of dtls1_open_handshake. */
  ghost function AcceptFragment(r: Recv, h: Header, body: seq<byte>, maxLen: nat): (s: (Option<Alert>, Recv))
    requires |r.ring| == FLIGHT
    ensures |s.1.ring| == FLIGHT
  {
    if Refused(r, h, maxLen).Some? then (Refused(r, h, maxLen), r)
    else if Ignored(r, h) then (None, r)
    else
      match Incoming(r, h)
      case None => (Some(IncomingAlert(r, h)), r)
      case Some(p) => (None, r.(ring := r.ring[h.msgSeq % FLIGHT := Some(Receive(p, h.fragOff, body, r.epoch))]))
  }

  ghost function AcceptAll(r: Recv, record: seq<byte>, maxLen: nat): (s: (Option<Alert>, Recv))
    requires |r.ring| == FLIGHT
    ensures |s.1.ring| == FLIGHT
    decreases |record|
  {
    if record == [] then (None, r)
    else
      match ParseFragment(record)
      case None => (Some(DecodeError), r)
      case Some(f) =>
        var s := AcceptFragment(r, f.hdr, f.body, maxLen);
        if s.0.Some? then s else AcceptAll(s.1, f.rest, maxLen)
  }

  /** dtls1_open_handshake on a record the record layer let through. */
  ghost function OpenHandshake(r: Recv, contentType: byte, record: seq<byte>, maxLen: nat): (s: (Opened, Recv))
    requires |r.ring| == FLIGHT
    ensures |s.1.ring| == FLIGHT
  {
    if contentType == SSL3_RT_APPLICATION_DATA then (if r.nullCipher then Error(UnexpectedMessage) else Discard, r)
    else if contentType == SSL3_RT_CHANGE_CIPHER_SPEC then
      if !r.nullCipher then (Error(UnexpectedMessage), r)
      else if record != [SSL3_MT_CCS] then (Error(IllegalParameter), r)
      else (Success, r.(hasCcs := true))
    else if contentType == SSL3_RT_HANDSHAKE then
      var s := AcceptAll(r, record, maxLen);
      (if s.0.Some? then Error(s.0.value) else Success, s.1)
    else (Error(UnexpectedMessage), r)
  }

  /** dtls_has_unprocessed_handshake_data. */
  ghost predicate Unprocessed(r: Recv)
    requires |r.ring| == FLIGHT
  {
    r.hasCcs || exists i :: 0 <= i < FLIGHT && r.ring[i].Some? && !(r.hasMessage && i == r.readSeq % FLIGHT)
  }

  /** dtls1_next_message. */
  ghost function AfterNext(r: Recv): Recv
    requires |r.ring| == FLIGHT
  {
    r.(ring := r.ring[r.readSeq % FLIGHT := None], readSeq := r.readSeq + 1, hasMessage := false)
  }

  lemma NextRingOk(r: Recv)
    requires RingOk(r)
    ensures RingOk(AfterNext(r))
  {
    forall i | 0 <= i < FLIGHT && AfterNext(r).ring[i].Some?
      ensures SlotOk(AfterNext(r), i, AfterNext(r).ring[i].value)
    {
      assert SlotOk(r, i, r.ring[i].value);
    }
  }

  lemma ReceiveSlotOk(r: Recv, i: nat, p: Partial, off: nat, body: seq<byte>)
    requires SlotOk(r, i, p) && off + |body| <= p.msgLen
    ensures SlotOk(r, i, Receive(p, off, body, r.epoch))
  {
  }

  lemma {:induction false} FragmentsKeepCcs(r: Recv, record: seq<byte>, maxLen: nat)
    requires |r.ring| == FLIGHT
    ensures AcceptAll(r, record, maxLen).1.hasCcs == r.hasCcs
    decreases |record|
  {
    if record != [] && ParseFragment(record).Some? {
      var f := ParseFragment(record).value;
      var s := AcceptFragment(r, f.hdr, f.body, maxLen);
      if s.0.None? {
        FragmentsKeepCcs(s.1, f.rest, maxLen);
      }
    }
  }

  // -- The receiver ----------------------------------------------------------------------------

  class Receiver {
    const maxLen: nat
    var handshakeReadSeq: nat
    var incoming: seq<HmFragment?>
    var hasMessage: bool
    var hasChangeCipherSpec: bool
    var rEpoch: nat
    var nullCipher: bool
    /** What the slots hold, and the objects behind them. */
    ghost var Ring: seq<Option<Partial>>
    ghost var Repr: set<object>

    static ghost function Foot(f: HmFragment): set<object>
      reads f
    {
      {f, f.data} + if f.reassembly == null then {} else {f.reassembly}
    }

    /** Slot `i` is empty, or holds a fragment with storage of its own. */
    ghost predicate Holds(i: nat)
      reads `incoming, `Ring, `Repr, Repr
      requires |incoming| == |Ring| && i < |incoming|
    {
      var f := incoming[i];
      && (f == null ==> Ring[i].None?)
      && (f != null ==> f in Repr && Foot(f) <= Repr && f.Valid() && Ring[i] == Some(f.Abstract()))
    }

    ghost predicate Apart(i: nat, j: nat)
      reads `incoming, `Ring, `Repr, Repr
      requires |incoming| == |Ring| && i < |incoming| && j < |incoming| && Holds(i) && Holds(j)
    {
      incoming[i] != null && incoming[j] != null ==> Foot(incoming[i]) !! Foot(incoming[j])
    }

    ghost predicate Slots()
      reads `incoming, `Ring, `Repr, Repr
    {
      && this !in Repr && |incoming| == |Ring| == FLIGHT
      && (forall i :: 0 <= i < FLIGHT ==> Holds(i))
      && (forall i, j :: 0 <= i < j < FLIGHT ==> Apart(i, j))
    }

    ghost predicate Valid()
      reads this, Repr
    {
      Slots() && RingOk(State()) && (hasMessage ==> CurrentComplete(State()))
    }

    ghost function State(): Recv
      reads this
    {
      Recv(handshakeReadSeq, Ring, hasMessage, hasChangeCipherSpec, rEpoch, nullCipher)
    }

    constructor (maxLen: nat)
      ensures Valid() && fresh(Repr) && this.maxLen == maxLen
      ensures State() == Recv(0, seq(FLIGHT, _ => None), false, false, 0, true)
    {
      this.maxLen := maxLen;
      handshakeReadSeq, hasMessage, hasChangeCipherSpec, rEpoch, nullCipher := 0, false, false, 0, true;
      incoming := seq(FLIGHT, _ => null);
      Ring := seq(FLIGHT, _ => None);
      Repr := {};
    }

    /** dtls1_get_incoming_message. */
    method GetIncomingMessage(h: Header) returns (frag: HmFragment?)
      requires Valid()
      modifies this, Repr
      ensures Valid() && fresh(Repr - old(Repr))
      ensures match Incoming(old(State()), h)
              case None => frag == null && State() == old(State())
              case Some(p) =>
                && frag != null && frag == incoming[h.msgSeq % FLIGHT] && frag.Valid() && frag.Abstract() == p
                && State() == old(State()).(ring := old(Ring)[h.msgSeq % FLIGHT := Some(p)])
    {
      if h.msgSeq < handshakeReadSeq || h.msgSeq - handshakeReadSeq >= FLIGHT {
        return null;
      }
      var idx := h.msgSeq % FLIGHT;
      frag := incoming[idx];
      assert Holds(idx);
      if frag != null {
        if frag.msgType != h.msgType || frag.msgLen != h.msgLen {
          return null;
        }
        assert Ring[idx := Some(frag.Abstract())] == Ring;
        return;
      }
      frag := new HmFragment(h);
      Put(idx, frag);
    }

    /** A new message in an empty slot. */
    method Put(idx: nat, frag: HmFragment)
      requires Valid() && idx < FLIGHT && incoming[idx] == null && !(hasMessage && idx == handshakeReadSeq % FLIGHT)
      requires Foot(frag) !! Repr && frag.Valid() && SlotOk(State(), idx, frag.Abstract())
      modifies this
      ensures Valid() && Repr == old(Repr) + Foot(frag) && incoming[idx] == frag
      ensures State() == old(State()).(ring := old(Ring)[idx := Some(frag.Abstract())])
    {
      hide HmFragment.Valid, HmFragment.Abstract, Complete;
      incoming := incoming[idx := frag];
      Ring := Ring[idx := Some(frag.Abstract())];
      Repr := Repr + Foot(frag);
      forall i | 0 <= i < FLIGHT ensures Holds(i) {
        assert old(Holds(i));
      }
      forall i, j | 0 <= i < j < FLIGHT ensures Apart(i, j) {
        assert old(Holds(i)) && old(Holds(j)) && old(Apart(i, j));
      }
    }

    /** "Copy the body into the fragment", in a slot whose message is not complete. */
    method AbsorbSlot(idx: nat, off: nat, body: seq<byte>)
      requires Slots() && idx < FLIGHT && incoming[idx] != null && Holds(idx)
      requires incoming[idx].reassembly != null && off + |body| <= incoming[idx].msgLen
      modifies `Ring, Repr
      ensures Slots() && Ring == old(Ring)[idx := Some(Receive(old(Ring)[idx].value, off, body, rEpoch))]
    {
      hide HmFragment.Valid, HmFragment.Abstract, Receive, Complete;
      var frag := incoming[idx];
      frag.Absorb(off, body, rEpoch);
      Ring := Ring[idx := Some(frag.Abstract())];
      forall i | 0 <= i < FLIGHT ensures Holds(i) {
        assert old(Holds(i));
        if i < idx {
          assert old(Apart(i, idx));
        } else if idx < i {
          assert old(Apart(idx, i));
        }
      }
      forall i, j | 0 <= i < j < FLIGHT ensures Apart(i, j) {
        assert old(Holds(i)) && old(Holds(j)) && old(Apart(i, j));
      }
    }

    /** The same, unless the message is complete already. */
    method Absorb(idx: nat, off: nat, body: seq<byte>)
      requires Valid() && idx < FLIGHT && incoming[idx] != null
      requires Holds(idx) && off + |body| <= incoming[idx].msgLen
      modifies this, Repr
      ensures Valid() && Repr == old(Repr)
      ensures State() == old(State()).(ring := old(Ring)[idx := Some(Receive(old(Ring)[idx].value, off, body, rEpoch))])
    {
      var frag := incoming[idx];
      frag.NullIffComplete();
      if frag.reassembly == null {
        assert Ring[idx := Some(frag.Abstract())] == Ring;
        return;
      }
      ghost var r := State();
      assert SlotOk(r, idx, Ring[idx].value);
      ReceiveSlotOk(r, idx, Ring[idx].value, off, body);
      AbsorbSlot(idx, off, body);
      assert forall i :: 0 <= i < FLIGHT && i != idx && r.ring[i].Some? ==> SlotOk(r, i, r.ring[i].value);
    }

    /** One turn of the loop of dtls1_open_handshake. */
    method OpenFragment(h: Header, body: seq<byte>) returns (alert: Option<Alert>)
      requires Valid() && |body| == h.fragLen
      modifies this, Repr
      ensures Valid() && fresh(Repr - old(Repr))
      ensures (alert, State()) == AcceptFragment(old(State()), h, body, maxLen)
    {
      if h.fragOff > h.msgLen || h.fragOff + h.fragLen > h.msgLen || h.msgLen > maxLen {
        return Some(IllegalParameter);
      }
      if rEpoch == 1 && h.msgSeq != handshakeReadSeq {
        return Some(UnexpectedMessage);
      }
      if h.msgSeq < handshakeReadSeq || h.msgSeq > handshakeReadSeq + FLIGHT {
        return None;
      }
      var frag := GetIncomingMessage(h);
      if frag == null {
        return Some(if h.msgSeq - handshakeReadSeq >= FLIGHT then InternalError else IllegalParameter);
      }
      var idx := h.msgSeq % FLIGHT;
      assert Holds(idx);
      Absorb(idx, h.fragOff, body);
      assert Ring == old(Ring)[idx := Ring[idx]];
      return None;
    }

    /** dtls1_open_handshake. */
    method Open(contentType: byte, record: seq<byte>) returns (result: Opened)
      requires Valid()
      modifies this, Repr
      ensures Valid() && fresh(Repr - old(Repr))
      ensures (result, State()) == OpenHandshake(old(State()), contentType, record, maxLen)
    {
      if contentType == SSL3_RT_APPLICATION_DATA {
        return if nullCipher then Error(UnexpectedMessage) else Discard;
      }
      if contentType == SSL3_RT_CHANGE_CIPHER_SPEC {
        if !nullCipher {
          return Error(UnexpectedMessage);
        }
        if |record| != 1 || record[0] != SSL3_MT_CCS {
          return Error(IllegalParameter);
        }
        hasChangeCipherSpec := true;
        return Success;
      }
      if contentType != SSL3_RT_HANDSHAKE {
        return Error(UnexpectedMessage);
      }
      var rest := record;
      while rest != []
        invariant Valid() && fresh(Repr - old(Repr))
        invariant AcceptAll(State(), rest, maxLen) == AcceptAll(old(State()), record, maxLen)
        decreases |rest|
      {
        var parsed := ParseFragment(rest);
        if parsed.None? {
          return Error(DecodeError);
        }
        var alert := OpenFragment(parsed.value.hdr, parsed.value.body);
        if alert.Some? {
          return Error(alert.value);
        }
        rest := parsed.value.rest;
      }
      return Success;
    }

    /** dtls1_get_message: the current message with its header, once complete. */
    method GetMessage() returns (raw: Option<seq<byte>>)
      requires Valid()
      modifies this`hasMessage
      ensures Valid()
      ensures raw.Some? <==> CurrentComplete(old(State()))
      ensures raw.Some? ==> raw.value == Assembled(old(Ring)[handshakeReadSeq % FLIGHT].value)
      ensures State() == if raw.Some? then old(State()).(hasMessage := true) else old(State())
    {
      var idx := handshakeReadSeq % FLIGHT;
      var frag := incoming[idx];
      assert Holds(idx);
      if frag == null {
        return None;
      }
      frag.NullIffComplete();
      if frag.reassembly != null {
        return None;
      }
      var contents := frag.Contents();
      hasMessage := true;
      return Some(contents);
    }

    /** dtls1_next_message. */
    method NextMessage()
      requires Valid() && hasMessage
      modifies this
      ensures Valid() && Repr == old(Repr)
      ensures State() == AfterNext(old(State()))
    {
      var index := handshakeReadSeq % FLIGHT;
      incoming := incoming[index := null];
      Ring := Ring[index := None];
      handshakeReadSeq := handshakeReadSeq + 1;
      hasMessage := false;
      forall i | 0 <= i < FLIGHT ensures Holds(i) {
        assert old(Holds(i));
      }
      forall i, j | 0 <= i < j < FLIGHT ensures Apart(i, j) {
        assert old(Holds(i)) && old(Holds(j)) && old(Apart(i, j));
      }
      NextRingOk(old(State()));
    }

    /** dtls_has_unprocessed_handshake_data. */
    method HasUnprocessed() returns (unprocessed: bool)
      requires Valid()
      ensures unprocessed <==> Unprocessed(State())
    {
      if hasChangeCipherSpec {
        return true;
      }
      var current := handshakeReadSeq % FLIGHT;
      for i := 0 to FLIGHT
        invariant forall j :: 0 <= j < i ==> Ring[j].None? || (hasMessage && j == current)
      {
        assert Holds(i);
        if hasMessage && i == current {
          continue;
        }
        if incoming[i] != null {
          return true;
        }
      }
      return false;
    }

    /** dtls1_set_read_state: refused while anything is left over. */
    method SetReadState(nullCipher: bool) returns (ok: bool)
      requires Valid()
      modifies this
      ensures Valid() && Repr == old(Repr)
      ensures ok <==> !Unprocessed(old(State()))
      ensures State() == if ok then old(State()).(epoch := old(rEpoch) + 1, nullCipher := nullCipher) else old(State())
    {
      var unprocessed := HasUnprocessed();
      if unprocessed {
        return false;
      }
      rEpoch := rEpoch + 1;
      this.nullCipher := nullCipher;
      return true;
    }

    /** The end of dtls1_open_change_cipher_spec. */
    method TakeChangeCipherSpec() returns (taken: bool)
      requires Valid()
      modifies this`hasChangeCipherSpec
      ensures Valid() && taken == old(hasChangeCipherSpec)
      ensures State() == old(State()).(hasCcs := false)
    {
      taken := hasChangeCipherSpec;
      hasChangeCipherSpec := false;
    }

    /** dtls1_open_change_cipher_spec: takes the ChangeCipherSpec that is waiting, or looks
        for one in this record. */
    method OpenChangeCipherSpec(contentType: byte, record: seq<byte>) returns (result: Opened)
      requires Valid()
      modifies this, Repr
      ensures Valid() && fresh(Repr - old(Repr))
      ensures result == Success <==>
                old(hasChangeCipherSpec) ||
                (contentType == SSL3_RT_CHANGE_CIPHER_SPEC && record == [SSL3_MT_CCS] && old(nullCipher))
      ensures old(hasChangeCipherSpec) ==> State() == old(State()).(hasCcs := false)
      ensures !old(hasChangeCipherSpec) ==>
                var s := OpenHandshake(old(State()), contentType, record, maxLen);
                && State() == s.1.(hasCcs := false)
                && (result != Success ==> result == if s.0 == Success then Discard else s.0)
    {
      if !hasChangeCipherSpec {
        FragmentsKeepCcs(State(), record, maxLen);
        result := Open(contentType, record);
        if result != Success {
          return;
        }
      }
      var taken := TakeChangeCipherSpec();
      return if taken then Success else Discard;
    }
  }

  // -- Whole runs ----------------------------------------------------------------------------

  /** What can happen to a receiver: a record the record layer let through, and
      the calls of the handshake. */
  datatype Event = Record(contentType: byte, payload: seq<byte>) | Get | Next | TakeCcs | NewEpoch(nullCipher: bool)

  /** `delivered` are the messages dtls1_get_message handed out, each once. */
  datatype Run = Run(r: Recv, delivered: seq<Partial>)

  function Start(): Run {
    Run(Recv(0, seq(FLIGHT, _ => None), false, false, 0, true), [])
  }

  ghost function Step(run: Run, e: Event, maxLen: nat): Run
    requires |run.r.ring| == FLIGHT
  {
    var r := run.r;
    match e
    case Record(contentType, payload) => run.(r := OpenHandshake(r, contentType, payload, maxLen).1)
    case Get =>
      if r.hasMessage || !CurrentComplete(r) then run
      else Run(r.(hasMessage := true), run.delivered + [r.ring[r.readSeq % FLIGHT].value])
    case Next => if r.hasMessage then run.(r := AfterNext(r)) else run
    case TakeCcs => run.(r := r.(hasCcs := false))
    case NewEpoch(nullCipher) =>
      if Unprocessed(r) then run else run.(r := r.(epoch := r.epoch + 1, nullCipher := nullCipher))
  }

  ghost predicate OneEpoch(p: Partial) {
    forall d, e :: d in p.epochs && e in p.epochs ==> d == e
  }

  ghost predicate Current(r: Recv, i: nat) {
    r.hasMessage && i == r.readSeq % FLIGHT
  }

  /** A message still being assembled has been fed in this epoch only. */
  ghost predicate EpochsOk(r: Recv)
    requires |r.ring| == FLIGHT
  {
    forall i :: 0 <= i < FLIGHT && r.ring[i].Some? ==>
      OneEpoch(r.ring[i].value) && (Current(r, i) || r.ring[i].value.epochs <= {r.epoch})
  }

  ghost predicate DeliveredOk(delivered: seq<Partial>) {
    forall i :: 0 <= i < |delivered| ==> delivered[i].msgSeq == i && Complete(delivered[i]) && OneEpoch(delivered[i])
  }

  /** What holds in every reachable state, whatever records arrive. */
  ghost predicate Sound(run: Run) {
    var r := run.r;
    && RingOk(r) && EpochsOk(r) && DeliveredOk(run.delivered)
    && |run.delivered| == r.readSeq + (if r.hasMessage then 1 else 0)
    && (r.hasMessage ==> r.ring[r.readSeq % FLIGHT] == Some(run.delivered[r.readSeq]))
  }

  lemma SlotSeq(r: Recv)
    requires RingOk(r) && r.ring[r.readSeq % FLIGHT].Some?
    ensures r.ring[r.readSeq % FLIGHT].value.msgSeq == r.readSeq
  {
    assert SlotOk(r, r.readSeq % FLIGHT, r.ring[r.readSeq % FLIGHT].value);
  }

  lemma AcceptSound(run: Run, h: Header, body: seq<byte>, maxLen: nat)
    requires Sound(run) && |body| == h.fragLen
    ensures Sound(run.(r := AcceptFragment(run.r, h, body, maxLen).1))
  {
    var r := run.r;
    if Refused(r, h, maxLen).None? && !Ignored(r, h) && Incoming(r, h).Some? {
      var idx, p := h.msgSeq % FLIGHT, Incoming(r, h).value;
      if r.ring[idx].None? {
        assert SlotOk(r, idx, p) && OneEpoch(p);
      } else {
        assert SlotOk(r, idx, p);
      }
      assert p.epochs <= {r.epoch} || Complete(p);
      ReceiveSlotOk(r, idx, p, h.fragOff, body);
      assert forall i :: 0 <= i < FLIGHT && i != idx && r.ring[i].Some? ==> SlotOk(r, i, r.ring[i].value);
    }
  }

  lemma {:induction false} AcceptAllSound(run: Run, record: seq<byte>, maxLen: nat)
    requires Sound(run)
    ensures Sound(run.(r := AcceptAll(run.r, record, maxLen).1))
    decreases |record|
  {
    if record != [] && ParseFragment(record).Some? {
      var f := ParseFragment(record).value;
      AcceptSound(run, f.hdr, f.body, maxLen);
      var s := AcceptFragment(run.r, f.hdr, f.body, maxLen);
      if s.0.None? {
        AcceptAllSound(run.(r := s.1), f.rest, maxLen);
      }
    }
  }

  lemma NextSound(run: Run)
    requires Sound(run) && run.r.hasMessage
    ensures Sound(run.(r := AfterNext(run.r)))
  {
    NextRingOk(run.r);
  }

  lemma StepSound(run: Run, e: Event, maxLen: nat)
    requires Sound(run)
    ensures Sound(Step(run, e, maxLen))
  {
    match e
    case Record(contentType, payload) => AcceptAllSound(run, payload, maxLen);
    case Get =>
      if run.r.ring[run.r.readSeq % FLIGHT].Some? {
        SlotSeq(run.r);
      }
    case Next =>
      if run.r.hasMessage {
        NextSound(run);
      }
    case TakeCcs =>
    case NewEpoch(_) =>
  }

  ghost function After(events: seq<Event>, maxLen: nat): (run: Run)
    ensures |run.r.ring| == FLIGHT
  {
    if events == [] then Start()
    else Step(After(events[..|events| - 1], maxLen), events[|events| - 1], maxLen)
  }

  /** Whatever arrives and whenever the epoch changes: every slot holds only the
      message of the window that belongs there, messages are delivered once each
      in order, and none was assembled from records of two read epochs. */
  lemma {:induction false} AlwaysSound(events: seq<Event>, maxLen: nat)
    ensures Sound(After(events, maxLen))
  {
    if events != [] {
      AlwaysSound(events[..|events| - 1], maxLen);
      StepSound(After(events[..|events| - 1], maxLen), events[|events| - 1], maxLen);
    }
  }
}
