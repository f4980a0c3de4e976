/** What a DTLS receiver answers to each record: by content type, by fragment, and, over
    whole runs, when a ChangeCipherSpec is waiting. */
module DtlsRecords {
  import opened BigEndian
  import opened Bytes
  import opened Options
  import opened DtlsFragment
  import opened DtlsReceiver
  import opened Reassembly

  // -- Records that are not handshake records -----------------------------------------------------

  /** Application data is dropped once encrypted and an error before; a ChangeCipherSpec is
      noted before encryption, if it is the one byte 1, and an error after; alerts are dealt
      with elsewhere, and nothing else is expected. */
  lemma OtherRecords(r: Recv, contentType: byte, record: seq<byte>, maxLen: nat)
    requires |r.ring| == FLIGHT && contentType != 22
    ensures var (answer, after) := OpenHandshake(r, contentType, record, maxLen);
            match contentType
            case 23 => answer == (if r.nullCipher then Error(UnexpectedMessage) else Discard) && after == r
            case 20 =>
              if !r.nullCipher then answer == Error(UnexpectedMessage) && after == r
              else if record == [1] then answer == Success && after == r.(hasCcs := true)
              else answer == Error(IllegalParameter) && after == r
            case _ => answer == Error(UnexpectedMessage) && after == r
  {
  }

  // -- Handshake records ------------------------------------------------------------------------------

  /** A fragment that is not inside its message, or of a message that is too long. */
  predicate Oversized(h: Header, maxLen: nat) {
    h.fragOff + h.fragLen > h.msgLen || h.msgLen > maxLen
  }

  /** The ring holds another message with this number. */
  ghost predicate Clashes(r: Recv, h: Header)
    requires |r.ring| == FLIGHT
  {
    && r.readSeq <= h.msgSeq < r.readSeq + 7
    && r.ring[h.msgSeq % 7].Some?
    && (r.ring[h.msgSeq % 7].value.msgType != h.msgType || r.ring[h.msgSeq % 7].value.msgLen != h.msgLen)
  }

  /** Which fragments are refused, and why; what is refused leaves nothing behind. */
  lemma FragmentAlerts(r: Recv, h: Header, body: seq<byte>, maxLen: nat)
    requires |r.ring| == FLIGHT
    ensures var (alert, after) := AcceptFragment(r, h, body, maxLen);
            && (alert == Some(UnexpectedMessage) <==> !Oversized(h, maxLen) && r.epoch == 1 && h.msgSeq != r.readSeq)
            && (alert == Some(IllegalParameter) <==>
                  || Oversized(h, maxLen)
                  || (!(r.epoch == 1 && h.msgSeq != r.readSeq) && Clashes(r, h)))
            && (alert == Some(InternalError) <==>
                  !Oversized(h, maxLen) && r.epoch != 1 && h.msgSeq == r.readSeq + 7)
            && alert != Some(DecodeError)
            && (alert.Some? ==> after == r)
  {
  }

  /** `q` is `p` with the bytes of the fragment over what it held. */
  ghost predicate WithBytes(p: Partial, q: Partial, off: nat, body: seq<byte>) {
    && (forall k :: k in q.bytes <==> k in p.bytes || off <= k < off + |body|)
    && forall k :: k in q.bytes ==> q.bytes[k] == if off <= k < off + |body| then body[k - off] else p.bytes[k]
  }

  lemma ReceiveWrites(p: Partial, off: nat, body: seq<byte>, epoch: nat)
    requires !Complete(p)
    ensures var q := Receive(p, off, body, epoch);
            && WithBytes(p, q, off, body) && q.msgType == p.msgType && q.msgLen == p.msgLen && q.msgSeq == p.msgSeq
            && q.epochs == p.epochs + {epoch}
  {
  }

  /** What is not refused: a fragment outside the window changes nothing, and neither does one
      of a complete message; any other is written over what its message held, and nothing
      else changes. */
  lemma FragmentTaken(r: Recv, h: Header, body: seq<byte>, maxLen: nat)
    requires RingOk(r) && AcceptFragment(r, h, body, maxLen).0.None?
    ensures var after := AcceptFragment(r, h, body, maxLen).1;
            if !(r.readSeq <= h.msgSeq < r.readSeq + 7) then after == r
            else
              && after == r.(ring := after.ring) && after.ring == r.ring[h.msgSeq % 7 := after.ring[h.msgSeq % 7]]
              && after.ring[h.msgSeq % 7].Some?
              && var was, now := r.ring[h.msgSeq % 7], after.ring[h.msgSeq % 7].value;
                 && now.msgType == h.msgType && now.msgLen == h.msgLen && now.msgSeq == h.msgSeq
                 && (was.Some? && Complete(was.value) ==> now == was.value)
                 && (was.Some? && !Complete(was.value) ==>
                       WithBytes(was.value, now, h.fragOff, body) && now.epochs == was.value.epochs + {r.epoch})
                 && (was.None? && h.msgLen == 0 ==> now.bytes == map[])
                 && (was.None? && h.msgLen > 0 ==>
                       WithBytes(Partial(h.msgType, h.msgSeq, h.msgLen, map[], {}), now, h.fragOff, body))
  {
    var idx := h.msgSeq % 7;
    if r.readSeq <= h.msgSeq < r.readSeq + 7 {
      var p := match r.ring[idx] case None => Fresh(h) case Some(held) => held;
      if r.ring[idx].Some? {
        assert SlotOk(r, idx, p);
      }
      assert r.ring[idx].None? && h.msgLen > 0 ==> 0 !in p.bytes && !Complete(p);
      assert r.ring[idx].None? && h.msgLen == 0 ==> Complete(p);
      if Complete(p) {
        assert Receive(p, h.fragOff, body, r.epoch) == p;
      } else {
        ReceiveWrites(p, h.fragOff, body, r.epoch);
      }
      hide Receive, Complete, RingOk, WithBytes;
    }
  }

  /** A record is cut into fragments, each with a header of twelve bytes, and they are taken
      in turn until one is refused; one that is cut short is an error. */
  lemma RecordCut(r: Recv, record: seq<byte>, maxLen: nat)
    requires |r.ring| == FLIGHT
    ensures var (answer, after) := OpenHandshake(r, 22, record, maxLen);
            if record == [] then answer == Success && after == r
            else if |record| < 12 || |record| < 12 + Value(record[9..12]) then
              answer == Error(DecodeError) && after == r
            else
              var n: nat := Value(record[9..12]);
              var h := Header(record[0], Value(record[1..4]), Value(record[4..6]), Value(record[6..9]), n);
              var (alert, next) := AcceptFragment(r, h, record[12..12 + n], maxLen);
              if alert.Some? then answer == Error(alert.value) && after == next
              else (answer, after) == OpenHandshake(next, 22, record[12 + n..], maxLen)
  {
    hide AcceptFragment, Value;
  }

  // -- ChangeCipherSpec over whole runs -----------------------------------------------------------------

  /** Event `k` is a ChangeCipherSpec that arrived before encryption. */
  ghost predicate Announced(events: seq<Event>, k: nat, maxLen: nat)
    requires k < |events|
  {
    events[k] == Record(20, [1]) && After(events[..k], maxLen).r.nullCipher
  }

  /** Event `k` is one that nobody has taken since. */
  ghost predicate Pending(events: seq<Event>, k: nat, maxLen: nat)
    requires k < |events|
  {
    Announced(events, k, maxLen) && TakeCcs !in events[k + 1..]
  }

  /** One has arrived, and none was taken since. */
  ghost predicate CcsWaiting(events: seq<Event>, maxLen: nat) {
    exists k :: 0 <= k < |events| && Pending(events, k, maxLen)
  }

  lemma StepCcs(run: Run, e: Event, maxLen: nat)
    requires |run.r.ring| == FLIGHT
    ensures Step(run, e, maxLen).r.hasCcs <==>
              (e == Record(20, [1]) && run.r.nullCipher) || (run.r.hasCcs && e != TakeCcs)
  {
    match e
    case Record(contentType, payload) =>
      if contentType == 22 {
        FragmentsKeepCcs(run.r, payload, maxLen);
      }
    case _ =>
  }

  lemma PendingStep(before: seq<Event>, e: Event, k: nat, maxLen: nat)
    requires k < |before|
    ensures Pending(before + [e], k, maxLen) <==> Pending(before, k, maxLen) && e != TakeCcs
  {
    hide After;
    var events := before + [e];
    assert events[..k] == before[..k] && events[k + 1..] == before[k + 1..] + [e];
  }

  lemma WaitingStep(before: seq<Event>, e: Event, maxLen: nat)
    ensures CcsWaiting(before + [e], maxLen) <==>
              || (e == Record(20, [1]) && After(before, maxLen).r.nullCipher)
              || (CcsWaiting(before, maxLen) && e != TakeCcs)
  {
    var events, n := before + [e], |before|;
    assert events[..n] == before && events[n + 1..] == [];
    assert Pending(events, n, maxLen) <==> e == Record(20, [1]) && After(before, maxLen).r.nullCipher;
    hide After, Pending;
    if CcsWaiting(events, maxLen) {
      var k :| 0 <= k < |events| && Pending(events, k, maxLen);
      if k < n {
        PendingStep(before, e, k, maxLen);
      }
    }
    if CcsWaiting(before, maxLen) && e != TakeCcs {
      var k :| 0 <= k < n && Pending(before, k, maxLen);
      PendingStep(before, e, k, maxLen);
    }
  }

  /** A ChangeCipherSpec can be taken if and only if one has come before encryption since the
      last time. */
  lemma {:induction false} CcsExactly(events: seq<Event>, maxLen: nat)
    ensures After(events, maxLen).r.hasCcs <==> CcsWaiting(events, maxLen)
  {
    if events != [] {
      var before, e := events[..|events| - 1], events[|events| - 1];
      CcsExactly(before, maxLen);
      StepCcs(After(before, maxLen), e, maxLen);
      WaitingStep(before, e, maxLen);
      assert events == before + [e];
    }
  }

  /** The read epoch goes up by one exactly if no ChangeCipherSpec is waiting and no message
      has begun to arrive but the current one; otherwise nothing happens. */
  lemma EpochExactly(events: seq<Event>, nullCipher: bool, maxLen: nat)
    ensures var r, after := After(events, maxLen).r, Step(After(events, maxLen), NewEpoch(nullCipher), maxLen).r;
            var clear := !CcsWaiting(events, maxLen) && forall i :: 0 <= i < 7 && r.ring[i].Some? ==>
                           r.hasMessage && i == r.readSeq % 7;
            after == if clear then r.(epoch := r.epoch + 1, nullCipher := nullCipher) else r
  {
    CcsExactly(events, maxLen);
    hide CcsWaiting, After;
  }
}
