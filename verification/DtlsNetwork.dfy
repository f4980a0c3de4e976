/** A DTLS sender and receiver over a network that may lose, duplicate and
    reorder records: what the receiver delivers is a prefix of what was queued. */
module DtlsNetwork {
  import opened Bytes
  import opened Options
  import opened DtlsFragment
  import opened Reassembly
  import opened DtlsReceiver
  import DtlsSender

  /** Every fragment in the payload is a piece of one of the messages queued. */
  ghost predicate Authentic(queued: seq<Message>, payload: seq<byte>)
    decreases |payload|
  {
    payload == [] || (ParseFragment(payload).Some? && PieceOf(queued, ParseFragment(payload).value)
                      && Authentic(queued, ParseFragment(payload).value.rest))
  }

  ghost predicate PieceOf(queued: seq<Message>, f: Fragment) {
    && f.hdr.msgSeq < |queued|
    && var m := queued[f.hdr.msgSeq];
       && m.msgSeq == f.hdr.msgSeq && f.hdr.msgType == m.msgType && f.hdr.msgLen == |m.body|
       && f.hdr.fragOff + f.hdr.fragLen <= |m.body| && f.body == m.body[f.hdr.fragOff..f.hdr.fragOff + f.hdr.fragLen]
  }

  /** Messages are numbered by their position, and few enough to be numbered. */
  ghost predicate Numbered(queued: seq<Message>) {
    forall i :: 0 <= i < |queued| ==> queued[i].msgSeq == i && Sendable(queued[i])
  }

  /** Everything a sender ever writes is authentic. */
  lemma GenuineIsAuthentic(queued: seq<Message>, rec: DtlsSender.Rec)
    requires Numbered(queued) && DtlsSender.Genuine(queued, rec) && rec.contentType == DtlsSender.SSL3_RT_HANDSHAKE
    ensures Authentic(queued, rec.payload)
  {
    var i: nat, off: nat, len: nat :| DtlsSender.IsSlice(queued, rec.payload, i, off, len);
    SliceParses(queued[i], off, len, []);
    assert rec.payload + [] == rec.payload;
    assert Authentic(queued, []);
  }

  lemma {:induction false} AuthenticLater(queued: seq<Message>, m: Message, payload: seq<byte>)
    requires Authentic(queued, payload)
    ensures Authentic(queued + [m], payload)
    decreases |payload|
  {
    if payload != [] {
      AuthenticLater(queued, m, ParseFragment(payload).value.rest);
    }
  }

  // -- Whole runs ----------------------------------------------------------------------------

  /** The sender queues a message, or something happens at the receiver. */
  datatype Event = Queue(msgType: byte, body: seq<byte>) | AtReceiver(e: DtlsReceiver.Event)

  datatype World = World(queued: seq<Message>, run: Run)

  /** The network delivers handshake payloads only from what the sender may have
      sent, whatever the order and however often; other records are arbitrary. */
  ghost predicate Possible(w: World, e: Event) {
    match e
    case Queue(_, body) => |body| < TWO24 && |w.queued| < TWO16
    case AtReceiver(Record(contentType, payload)) => contentType == SSL3_RT_HANDSHAKE ==> Authentic(w.queued, payload)
    case AtReceiver(_) => true
  }

  ghost function Next(w: World, e: Event, maxLen: nat): World
    requires |w.run.r.ring| == FLIGHT
  {
    match e
    case Queue(msgType, body) => w.(queued := w.queued + [Message(msgType, |w.queued|, body)])
    case AtReceiver(re) => w.(run := Step(w.run, re, maxLen))
  }

  /** Every message the receiver holds or has delivered is one that was queued. */
  ghost predicate Faithful(w: World) {
    && Numbered(w.queued) && Sound(w.run)
    && (forall i :: 0 <= i < FLIGHT && w.run.r.ring[i].Some? ==> FromQueue(w.queued, w.run.r.ring[i].value))
    && forall i :: 0 <= i < |w.run.delivered| ==> FromQueue(w.queued, w.run.delivered[i])
  }

  ghost predicate FromQueue(queued: seq<Message>, p: Partial) {
    p.msgSeq < |queued| && Of(p, queued[p.msgSeq])
  }

  lemma AcceptFaithful(w: World, f: Fragment, maxLen: nat)
    requires Faithful(w) && PieceOf(w.queued, f) && |f.body| == f.hdr.fragLen
    ensures Faithful(w.(run := w.run.(r := AcceptFragment(w.run.r, f.hdr, f.body, maxLen).1)))
  {
    hide DeliveredOk, EpochsOk, Receive, Of;
    var r, h := w.run.r, f.hdr;
    AcceptSound(w.run, h, f.body, maxLen);
    if Refused(r, h, maxLen).None? && !Ignored(r, h) && Incoming(r, h).Some? {
      var p := Incoming(r, h).value;
      IncomingOf(w, f);
      ReceiveOf(p, w.queued[h.msgSeq], h.fragOff, h.fragLen, r.epoch);
      assert Receive(p, h.fragOff, f.body, r.epoch).msgSeq == h.msgSeq by {
        OfSeq(Receive(p, h.fragOff, f.body, r.epoch), w.queued[h.msgSeq]);
      }
    }
  }

  lemma OfSeq(p: Partial, m: Message)
    requires Of(p, m)
    ensures p.msgSeq == m.msgSeq
  {
  }

  /** The slot a genuine fragment goes to is of its own message. */
  lemma IncomingOf(w: World, f: Fragment)
    requires Faithful(w) && PieceOf(w.queued, f) && Incoming(w.run.r, f.hdr).Some?
    ensures Of(Incoming(w.run.r, f.hdr).value, w.queued[f.hdr.msgSeq])
  {
    hide DeliveredOk, EpochsOk;
    var r, i := w.run.r, f.hdr.msgSeq % FLIGHT;
    if r.ring[i].Some? {
      assert SlotOk(r, i, r.ring[i].value) && FromQueue(w.queued, r.ring[i].value);
    }
  }

  lemma {:induction false} AcceptAllFaithful(w: World, payload: seq<byte>, maxLen: nat)
    requires Faithful(w) && Authentic(w.queued, payload)
    ensures Faithful(w.(run := w.run.(r := AcceptAll(w.run.r, payload, maxLen).1)))
    decreases |payload|
  {
    if payload != [] {
      var f := ParseFragment(payload).value;
      AcceptFaithful(w, f, maxLen);
      var s := AcceptFragment(w.run.r, f.hdr, f.body, maxLen);
      if s.0.None? {
        AcceptAllFaithful(w.(run := w.run.(r := s.1)), f.rest, maxLen);
      }
    }
  }

  lemma NextFaithful(w: World, e: Event, maxLen: nat)
    requires Faithful(w) && Possible(w, e)
    ensures Faithful(Next(w, e, maxLen))
  {
    match e
    case Queue(_, _) =>
    case AtReceiver(re) =>
      StepSound(w.run, re, maxLen);
      if re.Record? && re.contentType == SSL3_RT_HANDSHAKE {
        AcceptAllFaithful(w, re.payload, maxLen);
      }
  }

  ghost predicate AllPossible(events: seq<Event>, maxLen: nat) {
    forall n :: 0 <= n < |events| ==> Possible(After(events[..n], maxLen), events[n])
  }

  ghost function After(events: seq<Event>, maxLen: nat): (w: World)
    ensures |w.run.r.ring| == FLIGHT
  {
    if events == [] then World([], Start())
    else Next(After(events[..|events| - 1], maxLen), events[|events| - 1], maxLen)
  }

  lemma {:induction false} AlwaysFaithful(events: seq<Event>, maxLen: nat)
    requires AllPossible(events, maxLen)
    ensures Faithful(After(events, maxLen))
  {
    if events != [] {
      var n := |events| - 1;
      forall k | 0 <= k < n
        ensures Possible(After(events[..n][..k], maxLen), events[..n][k])
      {
        assert events[..n][..k] == events[..k];
      }
      AlwaysFaithful(events[..n], maxLen);
      NextFaithful(After(events[..n], maxLen), events[n], maxLen);
    }
  }

  ghost function Contents(delivered: seq<Partial>): (raws: seq<seq<byte>>)
    requires DeliveredOk(delivered)
  {
    seq(|delivered|, i requires 0 <= i < |delivered| => Assembled(delivered[i]))
  }

  function Raws(queued: seq<Message>): seq<seq<byte>> {
    seq(|queued|, i requires 0 <= i < |queued| => Raw(queued[i]))
  }

  /** In every run in which all fragments come from the sender, whatever is lost,
      duplicated, reordered or cut again for another MTU, the messages the receiver
      has delivered are byte for byte a prefix of those the sender queued, each
      exactly once and in sequence order. */
  lemma DeliveredIsPrefix(events: seq<Event>, maxLen: nat)
    requires AllPossible(events, maxLen)
    ensures DeliveredOk(After(events, maxLen).run.delivered)
    ensures Contents(After(events, maxLen).run.delivered) <= Raws(After(events, maxLen).queued)
  {
    AlwaysFaithful(events, maxLen);
    var w := After(events, maxLen);
    var delivered := w.run.delivered;
    forall i | 0 <= i < |delivered|
      ensures i < |w.queued| && Assembled(delivered[i]) == Raw(w.queued[i])
    {
      assert FromQueue(w.queued, delivered[i]);
      AssembledOf(delivered[i], w.queued[i]);
    }
    if delivered != [] {
      assert FromQueue(w.queued, delivered[|delivered| - 1]);
    }
  }

  /** A fragment of a queued message is turned down exactly when the message is
      too long for the receiver, when the encrypted epoch is waiting for another
      message, or when it is the one message just past the ring, which the filter
      lets through and the second check refuses. */
  lemma HonestFragmentRefused(w: World, f: Fragment, maxLen: nat)
    requires Faithful(w) && PieceOf(w.queued, f) && |f.body| == f.hdr.fragLen
    ensures AcceptFragment(w.run.r, f.hdr, f.body, maxLen).0.Some? <==>
            || f.hdr.msgLen > maxLen
            || (w.run.r.epoch == 1 && f.hdr.msgSeq != w.run.r.readSeq)
            || f.hdr.msgSeq == w.run.r.readSeq + FLIGHT
  {
    var r, h := w.run.r, f.hdr;
    if Refused(r, h, maxLen).None? && !Ignored(r, h) && r.ring[h.msgSeq % FLIGHT].Some? {
      var p := r.ring[h.msgSeq % FLIGHT].value;
      assert SlotOk(r, h.msgSeq % FLIGHT, p) && FromQueue(w.queued, p);
    }
  }

  // -- What arrives is kept ------------------------------------------------------------------

  /** The converse of HonestFragmentRefused. */
  predicate Welcome(r: Recv, f: Fragment, maxLen: nat) {
    && f.hdr.msgLen <= maxLen && (r.epoch == 1 ==> f.hdr.msgSeq == r.readSeq)
    && f.hdr.msgSeq != r.readSeq + FLIGHT
  }

  predicate InWindow(r: Recv, s: nat) {
    r.readSeq <= s < r.readSeq + FLIGHT
  }

  /** Anything of message `s` has arrived. */
  predicate Begun(r: Recv, s: nat)
    requires |r.ring| == FLIGHT
  {
    r.ring[s % FLIGHT].Some?
  }

  /** Offset `k` of message `s` has arrived. */
  predicate Has(r: Recv, s: nat, k: nat)
    requires |r.ring| == FLIGHT
  {
    Begun(r, s) && k in r.ring[s % FLIGHT].value.bytes
  }

  predicate Carries(f: Fragment, s: nat, k: nat) {
    f.hdr.msgSeq == s && f.hdr.fragOff <= k < f.hdr.fragOff + f.hdr.fragLen
  }

  ghost predicate Honest(w: World, f: Fragment) {
    PieceOf(w.queued, f) && |f.body| == f.hdr.fragLen
  }

  /** Messages of the window have slots of their own. */
  lemma SameSlot(r: Recv, s: nat, t: nat)
    requires InWindow(r, s) && InWindow(r, t)
    ensures s % FLIGHT == t % FLIGHT <==> s == t
  {
  }

  /** What the slot of message `s` holds is of message `s`. */
  lemma InSlot(w: World, s: nat)
    requires Faithful(w) && InWindow(w.run.r, s) && Begun(w.run.r, s)
    ensures s < |w.queued| && Of(w.run.r.ring[s % FLIGHT].value, w.queued[s])
  {
    var p := w.run.r.ring[s % FLIGHT].value;
    assert SlotOk(w.run.r, s % FLIGHT, p) && FromQueue(w.queued, p);
    SameSlot(w.run.r, p.msgSeq, s);
  }

  /** A welcome fragment adds its offsets to its message and nothing else. */
  lemma FragmentKept(w: World, f: Fragment, maxLen: nat, s: nat, k: nat)
    requires Faithful(w) && Honest(w, f) && Welcome(w.run.r, f, maxLen)
    requires InWindow(w.run.r, s) && s < |w.queued|
    ensures var r, r' := w.run.r, AcceptFragment(w.run.r, f.hdr, f.body, maxLen).1;
            && r'.readSeq == r.readSeq && r'.epoch == r.epoch
            && (Begun(r', s) <==> Begun(r, s) || f.hdr.msgSeq == s)
            && (k < |w.queued[s].body| ==> (Has(r', s, k) <==> Has(r, s, k) || Carries(f, s, k)))
  {
    var r, h := w.run.r, f.hdr;
    HonestFragmentRefused(w, f, maxLen);
    if InWindow(r, h.msgSeq) {
      SameSlot(r, h.msgSeq, s);
      if Begun(r, h.msgSeq) {
        InSlot(w, h.msgSeq);
      }
      var p := Incoming(r, h).value;
      if k < |w.queued[h.msgSeq].body| {
        ReceiveKeys(p, h.fragOff, f.body, r.epoch, k);
      }
    }
  }

  ghost function Fed(r: Recv, frags: seq<Fragment>, maxLen: nat): (r': Recv)
    requires |r.ring| == FLIGHT
    ensures |r'.ring| == FLIGHT
  {
    if frags == [] then r
    else
      var last := frags[|frags| - 1];
      AcceptFragment(Fed(r, frags[..|frags| - 1], maxLen), last.hdr, last.body, maxLen).1
  }

  ghost predicate AllWelcome(w: World, frags: seq<Fragment>, maxLen: nat) {
    forall i :: 0 <= i < |frags| ==> Honest(w, frags[i]) && Welcome(w.run.r, frags[i], maxLen)
  }

  predicate Mentions(frags: seq<Fragment>, s: nat) {
    exists i :: 0 <= i < |frags| && frags[i].hdr.msgSeq == s
  }

  predicate Covers(frags: seq<Fragment>, s: nat, k: nat) {
    exists i :: 0 <= i < |frags| && Carries(frags[i], s, k)
  }

  lemma LastCovers(frags: seq<Fragment>, s: nat, k: nat)
    requires frags != []
    ensures var n := |frags| - 1;
            && (Covers(frags, s, k) <==> Covers(frags[..n], s, k) || Carries(frags[n], s, k))
            && (Mentions(frags, s) <==> Mentions(frags[..n], s) || frags[n].hdr.msgSeq == s)
  {
    var n := |frags| - 1;
    if Covers(frags[..n], s, k) {
      var i :| 0 <= i < n && Carries(frags[..n][i], s, k);
      assert Carries(frags[i], s, k);
    }
    if Covers(frags, s, k) {
      var i :| 0 <= i < |frags| && Carries(frags[i], s, k);
      assert i == n || Carries(frags[..n][i], s, k);
    }
    if Mentions(frags[..n], s) {
      var i :| 0 <= i < n && frags[..n][i].hdr.msgSeq == s;
      assert frags[i].hdr.msgSeq == s;
    }
    if Mentions(frags, s) {
      var i :| 0 <= i < |frags| && frags[i].hdr.msgSeq == s;
      assert i == n || frags[..n][i].hdr.msgSeq == s;
    }
  }

  /** In whatever order welcome fragments of several messages arrive, the receiver
      has exactly the offsets it had and those they carried. */
  lemma {:induction false} FragmentsKept(w: World, frags: seq<Fragment>, maxLen: nat, s: nat, k: nat)
    requires Faithful(w) && AllWelcome(w, frags, maxLen) && InWindow(w.run.r, s) && s < |w.queued|
    ensures var r, r' := w.run.r, Fed(w.run.r, frags, maxLen);
            && r'.readSeq == r.readSeq && r'.epoch == r.epoch && Faithful(w.(run := w.run.(r := r')))
            && (Begun(r', s) <==> Begun(r, s) || Mentions(frags, s))
            && (k < |w.queued[s].body| ==> (Has(r', s, k) <==> Has(r, s, k) || Covers(frags, s, k)))
  {
    hide Begun, Has, Carries, AcceptFragment, Covers, Mentions, PieceOf, FromQueue;
    if frags == [] {
      NoneCover(s, k);
    } else {
      var n := |frags| - 1;
      assert AllWelcome(w, frags[..n], maxLen);
      FragmentsKept(w, frags[..n], maxLen, s, k);
      var w' := w.(run := w.run.(r := Fed(w.run.r, frags[..n], maxLen)));
      assert Honest(w', frags[n]) && Welcome(w'.run.r, frags[n], maxLen);
      FragmentKept(w', frags[n], maxLen, s, k);
      AcceptFaithful(w', frags[n], maxLen);
      LastCovers(frags, s, k);
    }
  }

  lemma NoneCover(s: nat, k: nat)
    ensures !Covers([], s, k) && !Mentions([], s)
  {
  }

  lemma AllOffsets(p: Partial, r: Recv, s: nat, m: Message)
    requires |r.ring| == FLIGHT && r.ring[s % FLIGHT] == Some(p) && Of(p, m)
    ensures Complete(p) <==> forall k: nat :: k < |m.body| ==> Has(r, s, k)
  {
    if forall k: nat :: k < |m.body| ==> Has(r, s, k) {
      forall k | 0 <= k < p.msgLen ensures k in p.bytes {
        assert Has(r, s, k);
      }
    }
  }

  /** The current message can be read if and only if its fragments, those before and
      these, cover it and there is at least one; then it reads as it was sent. */
  lemma ArrivesIffCovered(w: World, frags: seq<Fragment>, maxLen: nat)
    requires Faithful(w) && AllWelcome(w, frags, maxLen) && w.run.r.readSeq < |w.queued|
    ensures var r, r' := w.run.r, Fed(w.run.r, frags, maxLen);
            var s := r.readSeq;
            && (CurrentComplete(r') <==>
                && (Begun(r, s) || Mentions(frags, s))
                && forall k: nat :: k < |w.queued[s].body| ==> Has(r, s, k) || Covers(frags, s, k))
            && (CurrentComplete(r') ==> Assembled(r'.ring[r'.readSeq % FLIGHT].value) == Raw(w.queued[s]))
  {
    hide Covers, Mentions, AcceptFragment, PieceOf;
    var r, r', s := w.run.r, Fed(w.run.r, frags, maxLen), w.run.r.readSeq;
    FragmentsKept(w, frags, maxLen, s, 0);
    forall k: nat | k < |w.queued[s].body|
      ensures Has(r', s, k) <==> Has(r, s, k) || Covers(frags, s, k)
    {
      FragmentsKept(w, frags, maxLen, s, k);
    }
    hide Fed;
    if Begun(r', s) {
      var p := r'.ring[s % FLIGHT].value;
      InSlot(w.(run := w.run.(r := r')), s);
      AllOffsets(p, r', s, w.queued[s]);
      if Complete(p) {
        AssembledOf(p, w.queued[s]);
      }
    }
  }

  // -- A flight that arrives ------------------------------------------------------------------

  /** The record carries offset `k` of `m`, or all of it if it is empty. */
  predicate Bears(rec: DtlsSender.Rec, m: Message, k: nat) {
    && rec.contentType == DtlsSender.SSL3_RT_HANDSHAKE
    && match ParseFragment(rec.payload)
       case None => false
       case Some(f) =>
         f.hdr.msgSeq == m.msgSeq && (f.hdr.fragOff <= k < f.hdr.fragOff + f.hdr.fragLen || m.body == [])
  }

  predicate AnyBears(recs: seq<DtlsSender.Rec>, m: Message, k: nat) {
    exists j :: 0 <= j < |recs| && Bears(recs[j], m, k)
  }

  lemma AdvanceBears(flight: seq<DtlsSender.OutMsg>, q: DtlsSender.Pos, rec: DtlsSender.Rec, i: nat, m: Message, k: nat)
    requires i < |flight| && !flight[i].isCcs && DtlsSender.MessageOf(flight[i].data) == Some(m) && Sendable(m)
    requires DtlsSender.Advance(flight, q, rec).Some? && !DtlsSender.Before(DtlsSender.Pos(i, k), q)
    requires DtlsSender.Before(DtlsSender.Pos(i, k), DtlsSender.Advance(flight, q, rec).value)
    requires k < |m.body| || m.body == []
    ensures Bears(rec, m, k)
  {
    hide DtlsSender.MessageOf, Slice, ParseFragment;
    var len := |rec.payload| - DTLS1_HM_HEADER_LENGTH;
    SliceParses(m, q.off, len, []);
    assert rec.payload + [] == rec.payload;
  }

  /** Records that continue a flight beyond offset `k` of a message include that offset. */
  lemma {:induction false} WalkBears(flight: seq<DtlsSender.OutMsg>,
      recs: seq<DtlsSender.Rec>, i: nat, m: Message, k: nat)
    requires i < |flight| && !flight[i].isCcs && DtlsSender.MessageOf(flight[i].data) == Some(m) && Sendable(m)
    requires DtlsSender.Walk(flight, DtlsSender.Pos(0, 0), recs).Some?
    requires DtlsSender.Before(DtlsSender.Pos(i, k), DtlsSender.Walk(flight, DtlsSender.Pos(0, 0), recs).value)
    requires k < |m.body| || m.body == []
    ensures AnyBears(recs, m, k)
    decreases |recs|
  {
    hide DtlsSender.MessageOf, DtlsSender.Advance, Bears;
    if recs != [] {
      var n := |recs| - 1;
      var q := DtlsSender.Walk(flight, DtlsSender.Pos(0, 0), recs[..n]).value;
      if DtlsSender.Before(DtlsSender.Pos(i, k), q) {
        WalkBears(flight, recs[..n], i, m, k);
        var j :| 0 <= j < n && Bears(recs[..n][j], m, k);
        assert Bears(recs[j], m, k);
      } else {
        AdvanceBears(flight, q, recs[n], i, m, k);
      }
    }
  }

  /** Every handshake record has been opened as one of these fragments. */
  predicate Arrived(recs: seq<DtlsSender.Rec>, frags: seq<Fragment>) {
    forall j :: 0 <= j < |recs| && recs[j].contentType == DtlsSender.SSL3_RT_HANDSHAKE ==>
      ParseFragment(recs[j].payload).Some? && ParseFragment(recs[j].payload).value in frags
  }

  lemma BornIsCovered(recs: seq<DtlsSender.Rec>, frags: seq<Fragment>, m: Message, k: nat)
    requires Arrived(recs, frags) && AnyBears(recs, m, k)
    ensures Mentions(frags, m.msgSeq) && (m.body != [] ==> Covers(frags, m.msgSeq, k))
  {
    hide ParseFragment;
    var j :| 0 <= j < |recs| && Bears(recs[j], m, k);
    var f := ParseFragment(recs[j].payload).value;
    var i :| 0 <= i < |frags| && frags[i] == f;
    assert frags[i].hdr.msgSeq == m.msgSeq;
    if m.body != [] {
      assert Carries(frags[i], m.msgSeq, k);
    }
  }

  /** When the records of one whole writing of a flight have arrived, in any order and
      mixed with others, each of its messages that the window has room for is complete
      and reads as it was queued. */
  lemma FlightArrives(w: World,
      flight: seq<DtlsSender.OutMsg>, recs: seq<DtlsSender.Rec>, frags: seq<Fragment>, maxLen: nat, i: nat)
    requires Faithful(w) && AllWelcome(w, frags, maxLen) && Arrived(recs, frags)
    requires DtlsSender.Walk(flight, DtlsSender.Pos(0, 0), recs) == Some(DtlsSender.Pos(|flight|, 0))
    requires i < |flight| && !flight[i].isCcs && DtlsSender.MessageOf(flight[i].data).Some?
    requires var m := DtlsSender.MessageOf(flight[i].data).value;
             m.msgSeq < |w.queued| && w.queued[m.msgSeq] == m && InWindow(w.run.r, m.msgSeq)
    ensures var m, r' := DtlsSender.MessageOf(flight[i].data).value, Fed(w.run.r, frags, maxLen);
            Ready(r', m.msgSeq) && Assembled(r'.ring[m.msgSeq % FLIGHT].value) == Raw(m)
  {
    var m, r' := DtlsSender.MessageOf(flight[i].data).value, Fed(w.run.r, frags, maxLen);
    hide DtlsSender.Walk, DtlsSender.MessageOf, Covers, Mentions, AnyBears, Arrived, Fed, AcceptFragment, PieceOf;
    var s := m.msgSeq;
    WalkBears(flight, recs, i, m, 0);
    BornIsCovered(recs, frags, m, 0);
    FragmentsKept(w, frags, maxLen, s, 0);
    forall k: nat | k < |m.body| ensures Has(r', s, k) {
      WalkBears(flight, recs, i, m, k);
      BornIsCovered(recs, frags, m, k);
      FragmentsKept(w, frags, maxLen, s, k);
    }
    var p := r'.ring[s % FLIGHT].value;
    InSlot(w.(run := w.run.(r := r')), s);
    AllOffsets(p, r', s, m);
    AssembledOf(p, m);
  }

  function Slot(r: Recv, s: nat): Option<Partial>
    requires |r.ring| == FLIGHT
  {
    r.ring[s % FLIGHT]
  }

  /** Message `s` of the window is complete. */
  ghost predicate Ready(r: Recv, s: nat)
    requires |r.ring| == FLIGHT
  {
    Slot(r, s).Some? && Complete(Slot(r, s).value)
  }

  /** Getting the next `n` messages and going on after each. */
  ghost function ReadNext(run: Run, n: nat, maxLen: nat): (run': Run)
    requires |run.r.ring| == FLIGHT
    ensures |run'.r.ring| == FLIGHT
  {
    if n == 0 then run else Step(Step(ReadNext(run, n - 1, maxLen), Get, maxLen), DtlsReceiver.Event.Next, maxLen)
  }

  /** They are delivered in order. */
  lemma {:induction false} ReadsInOrder(run: Run, n: nat, maxLen: nat)
    requires DtlsReceiver.Sound(run) && !run.r.hasMessage && n <= FLIGHT
    requires forall s: nat :: run.r.readSeq <= s < run.r.readSeq + n ==> Ready(run.r, s)
    ensures var run' := ReadNext(run, n, maxLen);
            && DtlsReceiver.Sound(run') && !run'.r.hasMessage && run'.r.readSeq == run.r.readSeq + n
            && |run.delivered| == run.r.readSeq && |run'.delivered| == run'.r.readSeq && run.delivered <= run'.delivered
            && (forall s: nat :: run.r.readSeq <= s < run.r.readSeq + n ==> Some(run'.delivered[s]) == Slot(run.r, s))
            && (forall s: nat :: run.r.readSeq + n <= s < run.r.readSeq + FLIGHT ==> Slot(run'.r, s) == Slot(run.r, s))
  {
    if n > 0 {
      ReadsInOrder(run, n - 1, maxLen);
      var run1, run2 := ReadNext(run, n - 1, maxLen), ReadNext(run, n, maxLen);
      hide ReadNext, Step, Complete, RingOk, EpochsOk;
      ReadOne(run1, maxLen);
      assert run2 == Step(Step(run1, Get, maxLen), DtlsReceiver.Event.Next, maxLen) by {
        OneMoreRead(run, n, maxLen);
      }
      assert Ready(run.r, run.r.readSeq + (n - 1));
      assert Slot(run1.r, run1.r.readSeq) == Slot(run.r, run1.r.readSeq);
      hide DtlsReceiver.Sound;
      forall s: nat | run.r.readSeq + n <= s < run.r.readSeq + FLIGHT
        ensures Slot(run2.r, s) == Slot(run.r, s)
      {
        OtherSlot(run1.r.readSeq, s);
        assert Slot(run1.r, s) == Slot(run.r, s);
      }
    }
  }

  lemma OneMoreRead(run: Run, n: nat, maxLen: nat)
    requires |run.r.ring| == FLIGHT && n > 0
    ensures ReadNext(run, n, maxLen) ==
        Step(Step(ReadNext(run, n - 1, maxLen), Get, maxLen), DtlsReceiver.Event.Next, maxLen)
  {
  }

  lemma OtherSlot(s: nat, t: nat)
    requires s < t < s + FLIGHT
    ensures s % FLIGHT != t % FLIGHT
  {
  }

  /** The end of it: when all of a flight has been written without a break and has
      arrived, its messages are delivered as they were queued, in order, by reading on. */
  lemma FlightDelivered(w: World,
      flight: seq<DtlsSender.OutMsg>, recs: seq<DtlsSender.Rec>, frags: seq<Fragment>, maxLen: nat, n: nat)
    requires Faithful(w) && AllWelcome(w, frags, maxLen) && Arrived(recs, frags)
    requires DtlsSender.Walk(flight, DtlsSender.Pos(0, 0), recs) == Some(DtlsSender.Pos(|flight|, 0))
    requires !w.run.r.hasMessage && n <= FLIGHT && w.run.r.readSeq + n <= |w.queued|
    requires forall s: nat :: w.run.r.readSeq <= s < w.run.r.readSeq + n ==> InFlight(flight, w.queued[s])
    ensures var first, run := w.run.r.readSeq, ReadNext(w.run.(r := Fed(w.run.r, frags, maxLen)), n, maxLen);
            && |run.delivered| == first + n && w.run.delivered <= run.delivered
            && forall s: nat :: first <= s < first + n ==>
                 Complete(run.delivered[s]) && Assembled(run.delivered[s]) == Raw(w.queued[s])
  {
    var r', first := Fed(w.run.r, frags, maxLen), w.run.r.readSeq;
    hide DtlsSender.Walk, Arrived, Fed, ReadNext, AllWelcome, InFlight, Complete;
    FedFaithful(w, frags, maxLen);
    forall s: nat | first <= s < first + n
      ensures Ready(r', s) && Assembled(Slot(r', s).value) == Raw(w.queued[s])
    {
      var i := Index(flight, w.queued[s]);
      NumberedAt(w, s);
      FlightArrives(w, flight, recs, frags, maxLen, i);
    }
    hide DtlsReceiver.Sound, Numbered, FromQueue;
    ReadsInOrder(w.run.(r := r'), n, maxLen);
  }

  predicate InFlight(flight: seq<DtlsSender.OutMsg>, m: Message) {
    exists i :: 0 <= i < |flight| && Holds(flight[i], m)
  }

  predicate Holds(o: DtlsSender.OutMsg, m: Message) {
    !o.isCcs && DtlsSender.MessageOf(o.data) == Some(m)
  }

  lemma Index(flight: seq<DtlsSender.OutMsg>, m: Message) returns (i: nat)
    requires InFlight(flight, m)
    ensures i < |flight| && !flight[i].isCcs && DtlsSender.MessageOf(flight[i].data) == Some(m)
  {
    i :| 0 <= i < |flight| && Holds(flight[i], m);
  }

  lemma NumberedAt(w: World, s: nat)
    requires Faithful(w) && s < |w.queued|
    ensures w.queued[s].msgSeq == s && Sendable(w.queued[s])
  {
  }

  lemma FedFaithful(w: World, frags: seq<Fragment>, maxLen: nat)
    requires Faithful(w) && AllWelcome(w, frags, maxLen)
    ensures Faithful(w.(run := w.run.(r := Fed(w.run.r, frags, maxLen))))
    ensures Fed(w.run.r, frags, maxLen).readSeq == w.run.r.readSeq
    ensures Fed(w.run.r, frags, maxLen).hasMessage == w.run.r.hasMessage
    decreases |frags|
  {
    hide AcceptFragment, PieceOf, Numbered, FromQueue;
    if frags != [] {
      var n := |frags| - 1;
      assert AllWelcome(w, frags[..n], maxLen);
      FedFaithful(w, frags[..n], maxLen);
      var w' := w.(run := w.run.(r := Fed(w.run.r, frags[..n], maxLen)));
      assert Honest(w, frags[n]) && Honest(w', frags[n]);
      AcceptFaithful(w', frags[n], maxLen);
      OnlyTheRing(w'.run.r, frags[n], maxLen);
    }
  }

  lemma OnlyTheRing(r: Recv, f: Fragment, maxLen: nat)
    requires |r.ring| == FLIGHT
    ensures var r' := AcceptFragment(r, f.hdr, f.body, maxLen).1; r' == r.(ring := r'.ring)
  {
  }

  lemma ReadOne(run: Run, maxLen: nat)
    requires DtlsReceiver.Sound(run) && !run.r.hasMessage
    ensures var run1 := Step(run, Get, maxLen);
            var run2 := Step(run1, DtlsReceiver.Event.Next, maxLen);
            DtlsReceiver.Sound(run2) &&
            (Ready(run.r, run.r.readSeq) ==>
               && !run2.r.hasMessage && run2.r.readSeq == run.r.readSeq + 1
               && run2.delivered == run.delivered + [Slot(run.r, run.r.readSeq).value]
               && run2.r.ring == run.r.ring[run.r.readSeq % FLIGHT := None])
  {
    hide Complete;
    StepSound(run, Get, maxLen);
    StepSound(Step(run, Get, maxLen), DtlsReceiver.Event.Next, maxLen);
    hide DtlsReceiver.Sound;
  }

  /** `n` empty messages are queued. */
  function Queueing(n: nat): seq<Event> {
    seq(n, _ => Queue(0, []))
  }

  lemma {:induction false} QueuedAll(n: nat, maxLen: nat)
    requires n <= TWO16
    ensures AllPossible(Queueing(n), maxLen)
    ensures var w := After(Queueing(n), maxLen);
            w.run == Start() && |w.queued| == n && forall i :: 0 <= i < n ==> w.queued[i] == Message(0, i, [])
  {
    hide *;
    if n == 0 {
      NoneQueued(maxLen);
    } else {
      QueuedAll(n - 1, maxLen);
      QueueingStep(n);
      OneMoreQueued(Queueing(n - 1), maxLen);
    }
  }

  lemma NoneQueued(maxLen: nat)
    ensures AllPossible(Queueing(0), maxLen) && After(Queueing(0), maxLen) == World([], Start())
  {
    assert Queueing(0) == [];
  }

  lemma QueueingStep(n: nat)
    requires n > 0
    ensures Queueing(n) == Queueing(n - 1) + [Queue(0, [])]
  {
  }

  lemma OneMoreQueued(events: seq<Event>, maxLen: nat)
    requires AllPossible(events, maxLen) && |After(events, maxLen).queued| < TWO16
    ensures AllPossible(events + [Queue(0, [])], maxLen)
    ensures var w := After(events, maxLen);
            After(events + [Queue(0, [])], maxLen) == w.(queued := w.queued + [Message(0, |w.queued|, [])])
  {
    var all := events + [Queue(0, [])];
    assert all[..|events|] == events;
    forall k | 0 <= k < |all| ensures Possible(After(all[..k], maxLen), all[k]) {
      if k < |events| {
        assert all[..k] == events[..k] && Possible(After(events[..k], maxLen), events[k]);
      }
    }
  }

  /** A run in which a genuine fragment is refused: the eighth message of eight arrives
      before the first. */
  lemma JustPastTheRing(maxLen: nat) returns (events: seq<Event>, f: Fragment)
    ensures AllPossible(events, maxLen) && PieceOf(After(events, maxLen).queued, f)
    ensures f.hdr.msgSeq == After(events, maxLen).run.r.readSeq + FLIGHT && f.hdr.msgLen <= maxLen
    ensures AcceptFragment(After(events, maxLen).run.r, f.hdr, f.body, maxLen).0 == Some(InternalError)
  {
    events := Queueing(FLIGHT + 1);
    QueuedAll(FLIGHT + 1, maxLen);
    f := Fragment(Header(0, 0, FLIGHT, 0, 0), [], []);
  }
}
