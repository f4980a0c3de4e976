/** The order in which an honest client and server exchange messages (section 7.3
    of RFC 5246), for every consistent setting of the branching flags. */
module HandshakeScript {
  import opened Handshake
  import opened Options

  /** What both sides are configured with, and so negotiate. */
  datatype Params = Params(
    neg: Neg, hint: bool, certRequest: bool, requireCert: bool,
    dtls: bool, offered: bool, hasCert: bool, falseStart: bool)

  /** Settings two honest sides can have: a session is resumed only if offered, a
      certificate is requested or stapled only with a certificate cipher in a full
      handshake, and a client that must have a certificate has one. */
  predicate Consistent(p: Params) {
    && (p.neg.resumed ==> p.offered)
    && (p.neg.ocsp ==> CertAuth(p.neg.kex) && !p.neg.resumed)
    && (p.certRequest ==> CertAuth(p.neg.kex) && !p.neg.resumed)
    && (p.certRequest && p.requireCert ==> p.hasCert)
  }

  predicate Skx(p: Params) {
    RequiresSkx(p.neg.kex) || (!CertAuth(p.neg.kex) && p.hint)
  }

  // -- Milestones --------------------------------------------------------------------------------

  /** The end of the script. */
  const END := 17

  /** A resumption leaves out the key exchange, and the server finishes first. */
  predicate Live(p: Params, i: nat) {
    i <= END && (p.neg.resumed ==> i <= 1 || i >= 10)
  }

  function Next(p: Params, i: nat): (j: nat)
    requires Live(p, i) && i < END
    ensures Live(p, j)
  {
    if !p.neg.resumed then i + 1
    else if i == 1 then 14
    else if i == 16 then 10
    else if i == 13 then END
    else i + 1
  }

  function Prev(p: Params, i: nat): (j: nat)
    requires Live(p, i) && i > 0
    ensures Live(p, j) && j < END && Next(p, j) == i
  {
    if !p.neg.resumed then i - 1
    else if i == 14 then 1
    else if i == 10 then 16
    else if i == END then 13
    else i - 1
  }

  /** How many milestones come before `i`. */
  function Place(p: Params, i: nat): nat
    requires Live(p, i)
  {
    if !p.neg.resumed || i <= 1 then i
    else if i == END then 10
    else if i >= 14 then i - 12
    else i - 5
  }

  lemma PlaceNext(p: Params, i: nat)
    requires Live(p, i) && i < END
    ensures Place(p, Next(p, i)) == Place(p, i) + 1 || (p.neg.resumed && i == 13 && Place(p, END) == Place(p, i) + 2)
    ensures Place(p, i) < Place(p, Next(p, i)) <= END
  {
  }

  function If(cond: bool, m: Msg): Option<Item> {
    if cond then Some(Hs(m)) else None
  }

  predicate ByClient(i: nat) {
    i == 0 || 7 <= i <= 13
  }

  /** What is sent at milestone `i`, by the client or by the server. */
  function Piece(p: Params, i: nat): Option<Item>
    requires Live(p, i)
    decreases Place(p, i), 1
  {
    match i
    case 0 => Some(Hs(ClientHello))
    case 1 => Some(Hs(ServerHello(p.neg)))
    case 2 => If(CertAuth(p.neg.kex), Certificate(true))
    case 3 => If(p.neg.ocsp, CertificateStatus)
    case 4 => If(Skx(p), ServerKeyExchange)
    case 5 => If(p.certRequest, CertificateRequest)
    case 6 => Some(Hs(ServerHelloDone))
    case 7 => If(p.certRequest, Certificate(p.hasCert))
    case 8 => Some(Hs(ClientKeyExchange))
    case 9 => If(p.certRequest && p.hasCert, CertificateVerify)
    case 10 => Some(Ccs)
    case 11 => If(p.neg.npn, NextProto)
    case 12 => If(p.neg.channelId, ChannelId)
    case 13 => Some(Hs(Finished(false, Before(p, 13))))
    case 14 => If(p.neg.ticket, NewSessionTicket)
    case 15 => Some(Ccs)
    case 16 => Some(Hs(Finished(true, Before(p, 16))))
    case _ => None
  }

  function Shown(item: Option<Item>): seq<Msg> {
    if item.Some? && item.value.Hs? then [item.value.m] else []
  }

  /** The transcript when milestone `i` is reached. */
  function Before(p: Params, i: nat): seq<Msg>
    requires Live(p, i)
    decreases Place(p, i), 0
  {
    if i == 0 then []
    else
      PlaceNext(p, Prev(p, i));
      Before(p, Prev(p, i)) + Shown(Piece(p, Prev(p, i)))
  }

  /** What one side has yet to send from milestone `i` on. */
  function Out(p: Params, byClient: bool, i: nat): seq<Item>
    requires Live(p, i)
    decreases END - Place(p, i)
  {
    if i == END then []
    else
      PlaceNext(p, i);
      Own(p, byClient, i) + Out(p, byClient, Next(p, i))
  }

  function Own(p: Params, byClient: bool, i: nat): seq<Item>
    requires Live(p, i)
  {
    if ByClient(i) == byClient && Piece(p, i).Some? then [Piece(p, i).value] else []
  }

  /** Passing milestone `i`. */
  lemma Pass(p: Params, i: nat)
    requires Live(p, i) && i < END
    ensures Before(p, Next(p, i)) == Before(p, i) + Shown(Piece(p, i))
    ensures Out(p, true, i) == Own(p, true, i) + Out(p, true, Next(p, i))
    ensures Out(p, false, i) == Own(p, false, i) + Out(p, false, Next(p, i))
  {
    assert Prev(p, Next(p, i)) == i;
  }

  /** The pieces at either end of a resumption, and those only a full handshake has. */
  lemma PieceAt(p: Params, i: nat)
    requires Live(p, i)
    ensures i == 0 ==> Piece(p, i) == Some(Hs(ClientHello)) && Before(p, i) == []
    ensures i == 1 ==> Piece(p, i) == Some(Hs(ServerHello(p.neg)))
    ensures i == 2 ==> Piece(p, i) == If(CertAuth(p.neg.kex), Certificate(true))
    ensures i == 3 ==> Piece(p, i) == If(p.neg.ocsp, CertificateStatus)
    ensures i == 4 ==> Piece(p, i) == If(Skx(p), ServerKeyExchange)
    ensures i == 5 ==> Piece(p, i) == If(p.certRequest, CertificateRequest)
    ensures i == 6 ==> Piece(p, i) == Some(Hs(ServerHelloDone))
    ensures i == 7 ==> Piece(p, i) == If(p.certRequest, Certificate(p.hasCert))
    ensures i == 8 ==> Piece(p, i) == Some(Hs(ClientKeyExchange))
    ensures i == 9 ==> Piece(p, i) == If(p.certRequest && p.hasCert, CertificateVerify)
    ensures i == 10 ==> Piece(p, i) == Some(Ccs)
    ensures i == 11 ==> Piece(p, i) == If(p.neg.npn, NextProto)
    ensures i == 12 ==> Piece(p, i) == If(p.neg.channelId, ChannelId)
    ensures i == 13 ==> Piece(p, i) == Some(Hs(Finished(false, Before(p, i))))
    ensures i == 14 ==> Piece(p, i) == If(p.neg.ticket, NewSessionTicket)
    ensures i == 15 ==> Piece(p, i) == Some(Ccs)
    ensures i == 16 ==> Piece(p, i) == Some(Hs(Finished(true, Before(p, i))))
  {
  }

  // -- Whose turn it is ----------------------------------------------------------------------------

  /** Who sends next from milestone `i` on; the flag is true for the client. */
  function Head(p: Params, i: nat): Option<bool>
    requires Live(p, i)
    decreases END - Place(p, i)
  {
    if i == END then None
    else
      PlaceNext(p, i);
      if Piece(p, i).Some? then Some(ByClient(i)) else Head(p, Next(p, i))
  }

  lemma {:induction false} OutShrinks(p: Params, i: nat, j: nat)
    requires Live(p, i) && Live(p, j) && Place(p, i) <= Place(p, j)
    ensures |Out(p, true, i)| >= |Out(p, true, j)| && |Out(p, false, i)| >= |Out(p, false, j)|
    decreases END - Place(p, i)
  {
    if Place(p, i) == Place(p, j) {
      assert i == j;
    } else {
      PlaceNext(p, i);
      Pass(p, i);
      hide Piece, Before, Own;
      OutShrinks(p, Next(p, i), j);
    }
  }

  /** Two sides that have the same left to send and to receive agree on whose turn
      it is. */
  lemma {:induction false} SameHead(p: Params, i: nat, j: nat)
    requires Live(p, i) && Live(p, j) && Place(p, i) <= Place(p, j)
    requires |Out(p, true, i)| == |Out(p, true, j)| && |Out(p, false, i)| == |Out(p, false, j)|
    ensures Head(p, i) == Head(p, j)
    decreases END - Place(p, i)
  {
    if Place(p, i) == Place(p, j) {
      assert i == j;
    } else {
      PlaceNext(p, i);
      Pass(p, i);
      OutShrinks(p, Next(p, i), j);
      assert Own(p, true, i) == [] && Own(p, false, i) == [];
      SameHead(p, Next(p, i), j);
    }
  }

  // -- Moving through the script ---------------------------------------------------------------------

  /** The message a side has in hand is the next one the other side sends. */
  ghost predicate NextIn(p: Params, buf: Option<Msg>, byClient: bool, i: nat)
    requires Live(p, i)
  {
    buf.Some? ==> Out(p, byClient, i) != [] && Out(p, byClient, i)[0] == Hs(buf.value)
  }

  /** A step moves a side from milestone `i` to `j`: what it consumed and what it
      sent is what the script has between them. */
  ghost predicate Moved(p: Params, client: bool, io: Io, i: nat, io': Io, j: nat)
    requires Live(p, i) && Live(p, j)
  {
    && io.pending <= io'.pending
    && Out(p, client, i) == io'.pending[|io.pending|..] + Out(p, client, j)
    && (io'.buf == io.buf || io'.buf == None)
    && Out(p, !client, i) == (if io.buf.Some? && io'.buf.None? then [Hs(io.buf.value)] else []) + Out(p, !client, j)
  }

  lemma Stays(p: Params, client: bool, io: Io, i: nat, j: nat)
    requires Live(p, i) && Live(p, j) && Out(p, true, i) == Out(p, true, j) && Out(p, false, i) == Out(p, false, j)
    ensures Moved(p, client, io, i, io, j)
  {
    assert io.pending[|io.pending|..] == [];
    assert [] + Out(p, client, j) == Out(p, client, j) && [] + Out(p, !client, j) == Out(p, !client, j);
  }

  lemma Consumes(p: Params, client: bool, io: Io, i: nat, j: nat)
    requires Live(p, i) && Live(p, j) && io.buf.Some?
    requires Out(p, client, i) == Out(p, client, j) && Out(p, !client, i) == [Hs(io.buf.value)] + Out(p, !client, j)
    ensures Moved(p, client, io, i, Consume(io), j)
  {
    assert io.pending[|io.pending|..] == [];
    assert [] + Out(p, client, j) == Out(p, client, j);
  }

  /** One more item after what was sent so far. */
  lemma Sends(p: Params, client: bool, io: Io, i: nat, io': Io, j: nat, item: Item, transcript: seq<Msg>, k: nat)
    requires Live(p, i) && Live(p, j) && Live(p, k) && Moved(p, client, io, i, io', j) && io.buf == io'.buf
    requires Out(p, client, j) == [item] + Out(p, client, k) && Out(p, !client, j) == Out(p, !client, k)
    ensures Moved(p, client, io, i, Io(transcript, io'.pending + [item], io'.buf), k)
  {
    hide Out;
    var n := |io.pending|;
    assert (io'.pending + [item])[n..] == io'.pending[n..] + [item];
    assert io'.pending[n..] + ([item] + Out(p, client, k)) == io'.pending[n..] + [item] + Out(p, client, k);
  }

  /** Passing a milestone at which nothing is sent. */
  lemma PassEmpty(p: Params, i: nat)
    requires Live(p, i) && i < END && Piece(p, i).None?
    ensures Before(p, Next(p, i)) == Before(p, i)
    ensures Out(p, true, i) == Out(p, true, Next(p, i)) && Out(p, false, i) == Out(p, false, Next(p, i))
  {
    hide Before, Out, Piece;
    Pass(p, i);
    assert Before(p, i) + [] == Before(p, i);
    assert [] + Out(p, true, Next(p, i)) == Out(p, true, Next(p, i));
    assert [] + Out(p, false, Next(p, i)) == Out(p, false, Next(p, i));
  }

  /** Passing a milestone at which one side sends. */
  lemma PassOne(p: Params, i: nat)
    requires Live(p, i) && i < END && Piece(p, i).Some?
    ensures Out(p, ByClient(i), i) == [Piece(p, i).value] + Out(p, ByClient(i), Next(p, i))
    ensures Out(p, !ByClient(i), i) == Out(p, !ByClient(i), Next(p, i))
    ensures Before(p, Next(p, i)) == if Piece(p, i).value.Hs? then Before(p, i) + [Piece(p, i).value.m]
        else Before(p, i)
  {
    hide Before, Out, Piece;
    Pass(p, i);
    assert Before(p, i) + [] == Before(p, i);
    assert [] + Out(p, !ByClient(i), Next(p, i)) == Out(p, !ByClient(i), Next(p, i));
  }

  /** An optional message on the way. */
  lemma SendsIf(p: Params, client: bool, io: Io, i: nat, io': Io, j: nat, cond: bool, m: Msg)
    requires Live(p, i) && Live(p, j) && j < END && ByClient(j) == client && Moved(p, client, io, i, io', j)
        && io.buf == io'.buf
    requires Piece(p, j) == (if cond then Some(Hs(m)) else None) && io'.transcript == Before(p, j)
    ensures Moved(p, client, io, i, SendIf(io', cond, m), Next(p, j))
    ensures SendIf(io', cond, m).transcript == Before(p, Next(p, j)) && SendIf(io', cond, m).buf == io.buf
  {
    hide Out, Before, Piece;
    if cond {
      PassOne(p, j);
      Sends(p, client, io, i, io', j, Hs(m), Send(io', m).transcript, Next(p, j));
    } else {
      PassEmpty(p, j);
    }
  }

  lemma SendsCcs(p: Params, client: bool, io: Io, i: nat, io': Io, j: nat)
    requires Live(p, i) && Live(p, j) && j < END && ByClient(j) == client && Moved(p, client, io, i, io', j)
        && io.buf == io'.buf
    requires Piece(p, j) == Some(Ccs) && io'.transcript == Before(p, j)
    ensures Moved(p, client, io, i, SendCcs(io'), Next(p, j))
    ensures SendCcs(io').transcript == Before(p, Next(p, j)) && SendCcs(io').buf == io.buf
  {
    hide Out, Before, Piece;
    PassOne(p, j);
    Sends(p, client, io, i, io', j, Ccs, io'.transcript, Next(p, j));
  }

  /** What a side has in hand when the other side's piece of a milestone is due. */
  lemma InHandIs(p: Params, buf: Option<Msg>, byClient: bool, i: nat)
    requires Live(p, i) && i < END && NextIn(p, buf, byClient, i) && buf.Some?
    requires ByClient(i) == byClient && Piece(p, i).Some?
    ensures Piece(p, i) == Some(Hs(buf.value))
  {
    hide Out, Before, Piece;
    PassOne(p, i);
  }
}
