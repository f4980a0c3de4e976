/** A client talking to an honest server: every step of its machine keeps it in the
    script. */
module HonestClient {
  import opened Handshake
  import opened HandshakeScript
  import opened Options
  import C = HandshakeClient

  /** The milestone the client is at. */
  function At(p: Params, c: C.Client, wait: Wait): (i: nat)
    ensures Live(p, i) || (p.neg.resumed && 2 <= i <= 9)
  {
    match c.state
    case StartConnect => 0
    case EnterEarlyData => 1
    case ReadHelloVerifyRequest => 1
    case ReadServerHello => 1
    case ReadServerCertificate => 2
    case ReadCertificateStatus => 3
    case VerifyServerCertificate => 4
    case ReadServerKeyExchange => 4
    case ReadCertificateRequest => 5
    case ReadServerHelloDone => 6
    case SendClientCertificate => 7
    case SendClientKeyExchange => 8
    case SendClientCertificateVerify => 9
    case SendClientFinished => 10
    case FinishFlight => if p.neg.resumed then END else 14
    case ReadSessionTicket => 14
    case ProcessChangeCipherSpec => if wait == ReadCcs then 15 else 16
    case ReadServerFinished => 16
    case FinishClientHandshake => END
    case Done => END
  }

  /** The client waits for a message in this state. */
  predicate Wants(p: Params, s: C.State) {
    || s == C.ReadHelloVerifyRequest || s == C.ReadServerHello || s == C.ReadServerKeyExchange
    || s == C.ReadServerHelloDone || s == C.ReadServerFinished
    || ((s == C.ReadServerCertificate || s == C.ReadCertificateRequest) && CertAuth(p.neg.kex))
    || (s == C.ReadCertificateStatus && p.neg.ocsp)
    || (s == C.ReadSessionTicket && p.neg.ticket)
  }

  predicate Sending(s: C.State) {
    || s == C.SendClientCertificate || s == C.SendClientKeyExchange || s == C.SendClientCertificateVerify
    || s == C.SendClientFinished
  }

  function ConfigOf(p: Params): C.Config {
    C.Config(p.dtls, p.offered, p.hasCert, p.falseStart)
  }

  /** The CertificateRequest, if any, has been read in this state. */
  predicate RequestSeen(s: C.State) {
    && !C.InHello(s) && s != C.ReadServerCertificate && s != C.ReadCertificateStatus
    && s != C.VerifyServerCertificate && s != C.ReadServerKeyExchange && s != C.ReadCertificateRequest
  }

  /** What holds of an honest client at every moment. */
  ghost predicate InScript(p: Params, c: C.Client, wait: Wait) {
    var i := At(p, c, wait);
    && Live(p, i) && c.cfg == ConfigOf(p) && c.io.transcript == Before(p, i)
    && (!C.InHello(c.state) ==> c.neg == p.neg)
    && c.certRequest == (p.certRequest && RequestSeen(c.state))
    && wait != Error
    && (wait == ReadMessage ==> Wants(p, c.state) && c.io.buf.None?)
    && (wait == ReadCcs ==> c.state == C.ProcessChangeCipherSpec)
    && (c.state == C.ProcessChangeCipherSpec || i == 0 || i == END ==> c.io.buf.None?)
    && (wait != Flush && !Sending(c.state) ==> c.io.pending == [])
    && (wait == Flush ==> !Sending(c.state))
  }

  // -- The client's steps ------------------------------------------------------------------------

  /** A step of the machine that keeps the client in the script. */
  ghost predicate Kept(p: Params, c: C.Client, wait: Wait, w: Wait, c': C.Client)
    requires Live(p, At(p, c, wait))
  {
    && InScript(p, c', w)
    && Moved(p, true, c.io, At(p, c, wait), c'.io, At(p, c', w))
  }

  lemma StartStep(p: Params, c: C.Client, wait: Wait)
    requires InScript(p, c, wait) && Runs(wait) && c.state == C.StartConnect
    ensures Kept(p, c, wait, C.DoHello(c).0, C.DoHello(c).1)
  {
    hide Out, Before, Piece;
    PieceAt(p, 0);
    PassOne(p, 0);
    Stays(p, true, c.io, 0, 0);
    Sends(p, true, c.io, 0, c.io, 0, Hs(ClientHello), Send(c.io, ClientHello).transcript, 1);
  }

  lemma HelloStep(p: Params, c: C.Client, wait: Wait)
    requires Consistent(p) && InScript(p, c, wait) && Runs(wait) && C.InHello(c.state) && c.state != C.StartConnect
    requires NextIn(p, c.io.buf, false, At(p, c, wait))
    ensures Kept(p, c, wait, C.DoHello(c).0, C.DoHello(c).1)
  {
    hide Out, Before, Piece, NextIn, Moved;
    PieceAt(p, 1);
    PassOne(p, 1);
    Stays(p, true, c.io, 1, 1);
    if c.io.buf.Some? {
      InHandIs(p, c.io.buf, false, 1);
      Consumes(p, true, c.io, 1, Next(p, 1));
    }
  }

  /** Passing from one state to another at one milestone, or over an empty one. */
  lemma PassesOver(p: Params, c: C.Client, wait: Wait, next: C.State)
    requires InScript(p, c, wait) && Runs(wait) && C.InServerFlight(c.state)
    requires C.InServerFlight(next) && (RequestSeen(next) == RequestSeen(c.state) || !p.certRequest)
    requires var i, j := At(p, c, wait), At(p, c.(state := next), Ok);
             j == i || (j == i + 1 && Piece(p, i).None?)
    ensures Kept(p, c, wait, Ok, c.(state := next))
  {
    hide Out, Before, Piece;
    var i, j := At(p, c, wait), At(p, c.(state := next), Ok);
    if j == i + 1 {
      PassEmpty(p, i);
    }
    Stays(p, true, c.io, i, j);
  }

  /** Reading the message of the milestone. */
  lemma ReadsPiece(p: Params, c: C.Client, wait: Wait, c': C.Client)
    requires InScript(p, c, wait) && Runs(wait) && C.InServerFlight(c.state) && c.io.buf.Some?
    requires c' == C.Client(c'.state, c.cfg, c.neg, c'.certRequest, Consume(c.io))
    requires c'.state == C.SendClientCertificate || C.InServerFlight(c'.state)
    requires c'.certRequest == (p.certRequest && RequestSeen(c'.state))
    requires var i := At(p, c, wait);
             && At(p, c', Ok) == i + 1 && !ByClient(i) && Piece(p, i) == Some(Hs(c.io.buf.value))
    ensures Kept(p, c, wait, Ok, c')
  {
    hide Out, Before, Piece;
    var i := At(p, c, wait);
    PassOne(p, i);
    Consumes(p, true, c.io, i, i + 1);
  }

  /** What the client has in hand is what the milestone, or the first one after it
      that is not empty, sends. */
  lemma InHand(p: Params, buf: Option<Msg>, i: nat)
    requires Live(p, i) && 1 <= i <= 6 && buf.Some? && NextIn(p, buf, false, i)
    ensures Piece(p, i).Some? ==> Piece(p, i) == Some(Hs(buf.value))
    ensures Piece(p, i).None? && i < 6 && !p.neg.resumed ==> NextIn(p, buf, false, i + 1)
  {
    hide Out, Before, Piece;
    if Piece(p, i).Some? {
      PassOne(p, i);
    } else {
      PassEmpty(p, i);
    }
  }

  /** In hand at the end of the server's flight: a key exchange, a request or the end. */
  lemma InHandLate(p: Params, buf: Option<Msg>, i: nat)
    requires !p.neg.resumed && 4 <= i <= 6 && buf.Some? && NextIn(p, buf, false, i)
    ensures buf.value == if i == 4 && Skx(p) then ServerKeyExchange
                         else if i <= 5 && p.certRequest then CertificateRequest else ServerHelloDone
    decreases END - i
  {
    hide Out, Before, NextIn;
    PieceAt(p, i);
    InHand(p, buf, i);
    if i < 6 && Piece(p, i).None? {
      InHandLate(p, buf, i + 1);
    }
  }

  lemma CertificateStep(p: Params, c: C.Client, wait: Wait, a: Answer)
    requires Consistent(p) && InScript(p, c, wait) && Runs(wait) && a != Failed
    requires c.state == C.ReadServerCertificate || c.state == C.ReadCertificateStatus
        || c.state == C.VerifyServerCertificate
    requires NextIn(p, c.io.buf, false, At(p, c, wait))
    ensures Kept(p, c, wait, C.DoServerFlight(c, a).0, C.DoServerFlight(c, a).1)
  {
    hide Out, Before, Piece, NextIn, Moved, CertAuth, Skx;
    var i := At(p, c, wait);
    var c' := C.DoServerFlight(c, a).1;
    PieceAt(p, i);
    if c.io.buf.Some? && i < 4 {
      InHand(p, c.io.buf, i);
    }
    if c' == c {
      Stays(p, true, c.io, i, i);
    } else if c'.io == c.io {
      PassesOver(p, c, wait, c'.state);
    } else {
      ReadsPiece(p, c, wait, c');
    }
  }

  lemma ServerFlightStep(p: Params, c: C.Client, wait: Wait, a: Answer)
    requires Consistent(p) && InScript(p, c, wait) && Runs(wait)
    requires c.state == C.ReadServerKeyExchange || c.state == C.ReadCertificateRequest
        || c.state == C.ReadServerHelloDone
    requires NextIn(p, c.io.buf, false, At(p, c, wait))
    ensures Kept(p, c, wait, C.DoServerFlight(c, a).0, C.DoServerFlight(c, a).1)
  {
    hide Out, Before, Piece, NextIn, Moved;
    var i := At(p, c, wait);
    var c' := C.DoServerFlight(c, a).1;
    PieceAt(p, i);
    if c.io.buf.Some? {
      InHandLate(p, c.io.buf, i);
    }
    if c' == c {
      Stays(p, true, c.io, i, i);
    } else if c'.io == c.io {
      PassesOver(p, c, wait, c'.state);
    } else {
      ReadsPiece(p, c, wait, c');
    }
  }

  /** Sending the message of the milestone, or passing it over when it has none. */
  lemma SendsPiece(p: Params, c: C.Client, wait: Wait, next: C.State)
    requires InScript(p, c, wait) && Runs(wait) && Sending(c.state) && Sending(next)
    requires var i := At(p, c, wait); 7 <= i <= 9 && At(p, c.(state := next), Ok) == i + 1
    ensures var i := At(p, c, wait);
            match Piece(p, i)
            case Some(Hs(m)) => Kept(p, c, wait, Ok, c.(state := next, io := Send(c.io, m)))
            case Some(Ccs) => true
            case None => Kept(p, c, wait, Ok, c.(state := next))
  {
    hide Out, Before, Piece;
    var i := At(p, c, wait);
    if Piece(p, i).None? {
      PassEmpty(p, i);
      Stays(p, true, c.io, i, i + 1);
    } else if Piece(p, i).value.Hs? {
      PassOne(p, i);
      Stays(p, true, c.io, i, i);
      Sends(p, true, c.io, i, c.io, i, Piece(p, i).value, Send(c.io, Piece(p, i).value.m).transcript, i + 1);
    }
  }

  lemma FinalMoves(p: Params, c: C.Client, j: nat)
    requires Live(p, 10) && c.neg == p.neg && c.io.transcript == Before(p, 10)
    requires j == if p.neg.resumed then END else 14
    ensures Moved(p, true, c.io, 10, C.ClientFinal(c), j) && C.ClientFinal(c).transcript == Before(p, j)
    ensures C.ClientFinal(c).buf == c.io.buf
  {
    hide Out, Before, Piece;
    PieceAt(p, 10);
    PieceAt(p, 11);
    PieceAt(p, 12);
    PieceAt(p, 13);
    Stays(p, true, c.io, 10, 10);
    SendsCcs(p, true, c.io, 10, c.io, 10);
    SendsIf(p, true, c.io, 10, SendCcs(c.io), 11, p.neg.npn, NextProto);
    var io := SendIf(SendCcs(c.io), p.neg.npn, NextProto);
    SendsIf(p, true, c.io, 10, io, 12, p.neg.channelId, ChannelId);
    var io' := SendIf(io, p.neg.channelId, ChannelId);
    SendsIf(p, true, c.io, 10, io', 13, true, Finished(false, io'.transcript));
  }

  lemma FinishedStep(p: Params, c: C.Client, wait: Wait, a: Answer)
    requires InScript(p, c, wait) && Runs(wait) && c.state == C.SendClientFinished && a != Failed
    requires NextIn(p, c.io.buf, false, At(p, c, wait))
    ensures Kept(p, c, wait, C.DoClientFlight(c, a).0, C.DoClientFlight(c, a).1)
  {
    hide Out, Before, Piece, NextIn, Moved, C.ClientFinal;
    Stays(p, true, c.io, 10, 10);
    FinalMoves(p, c, if p.neg.resumed then END else 14);
    EndQuiet(p, c.io.buf, 10);
  }

  lemma ClientFlightStep(p: Params, c: C.Client, wait: Wait, a: Answer)
    requires Consistent(p) && InScript(p, c, wait) && Runs(wait) && C.InClientFlight(c.state) && a != Failed
    requires c.state != C.SendClientFinished
    ensures Kept(p, c, wait, C.DoClientFlight(c, a).0, C.DoClientFlight(c, a).1)
  {
    hide Out, Before, Piece, Moved, C.ClientFinal;
    var i := At(p, c, wait);
    PieceAt(p, i);
    Stays(p, true, c.io, i, i);
    if c.state != C.FinishFlight {
      SendsPiece(p, c, wait, if i == 7 then C.SendClientKeyExchange
                                 else if i == 8 then C.SendClientCertificateVerify else C.SendClientFinished);
    }
  }

  /** In a resumption nothing is left to read after the server's Finished. */
  lemma EndQuiet(p: Params, buf: Option<Msg>, i: nat)
    requires i == 10 && NextIn(p, buf, false, i)
    ensures p.neg.resumed ==> buf.None?
  {
    if p.neg.resumed {
      Pass(p, 10);
      Pass(p, 11);
      Pass(p, 12);
      Pass(p, 13);
    }
  }

  lemma TicketStep(p: Params, c: C.Client, wait: Wait)
    requires InScript(p, c, wait) && Runs(wait) && c.state == C.ReadSessionTicket
    requires NextIn(p, c.io.buf, false, At(p, c, wait))
    ensures Kept(p, c, wait, C.DoEnd(c).0, C.DoEnd(c).1)
  {
    hide Out, Before, Piece;
    PieceAt(p, 14);
    Stays(p, true, c.io, 14, 14);
    if p.neg.ticket {
      PassOne(p, 14);
      if c.io.buf.Some? {
        Consumes(p, true, c.io, 14, 15);
      }
    } else {
      PassEmpty(p, 14);
      PieceAt(p, 15);
      PassOne(p, 15);
      Stays(p, true, c.io, 14, 15);
    }
  }

  lemma CheckStep(p: Params, c: C.Client, wait: Wait)
    requires InScript(p, c, wait) && Runs(wait) && c.state == C.ReadServerFinished
    requires NextIn(p, c.io.buf, false, At(p, c, wait))
    ensures Kept(p, c, wait, C.DoEnd(c).0, C.DoEnd(c).1)
  {
    hide Out, Before, Piece, NextIn, Moved;
    PieceAt(p, 16);
    PassOne(p, 16);
    Stays(p, true, c.io, 16, 16);
    if c.io.buf.Some? {
      InHandIs(p, c.io.buf, false, 16);
      Consumes(p, true, c.io, 16, Next(p, 16));
    }
  }

  lemma EndStep(p: Params, c: C.Client, wait: Wait)
    requires InScript(p, c, wait) && Runs(wait)
        && (c.state == C.ProcessChangeCipherSpec || c.state == C.FinishClientHandshake)
    ensures Kept(p, c, wait, C.DoEnd(c).0, C.DoEnd(c).1)
  {
    hide Out, Before, Piece, NextIn, Moved;
    Stays(p, true, c.io, At(p, c, wait), At(p, c, wait));
  }

  /** An honest client never rejects what the server sends next, and stays in the
      script. */
  lemma Step(p: Params, c: C.Client, wait: Wait, a: Answer)
    requires Consistent(p) && InScript(p, c, wait) && Runs(wait) && c.state != C.Done && a != Failed
    requires NextIn(p, c.io.buf, false, At(p, c, wait))
    ensures Kept(p, c, wait, C.Do(c, a).0, C.Do(c, a).1)
  {
    hide Out, Before, Piece, NextIn, Kept, InScript, C.DoHello, C.DoServerFlight, C.DoClientFlight, C.DoEnd;
    match c.state
    case StartConnect => StartStep(p, c, wait);
    case EnterEarlyData => HelloStep(p, c, wait);
    case ReadHelloVerifyRequest => HelloStep(p, c, wait);
    case ReadServerHello => HelloStep(p, c, wait);
    case ReadServerCertificate => CertificateStep(p, c, wait, a);
    case ReadCertificateStatus => CertificateStep(p, c, wait, a);
    case VerifyServerCertificate => CertificateStep(p, c, wait, a);
    case ReadServerKeyExchange => ServerFlightStep(p, c, wait, a);
    case ReadCertificateRequest => ServerFlightStep(p, c, wait, a);
    case ReadServerHelloDone => ServerFlightStep(p, c, wait, a);
    case SendClientFinished => FinishedStep(p, c, wait, a);
    case ReadSessionTicket => TicketStep(p, c, wait);
    case ReadServerFinished => CheckStep(p, c, wait);
    case ProcessChangeCipherSpec => EndStep(p, c, wait);
    case FinishClientHandshake => EndStep(p, c, wait);
    case _ => ClientFlightStep(p, c, wait, a);
  }
}
