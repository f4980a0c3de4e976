/** A server talking to an honest client: every step of its machine keeps it in the
    script. */
module HonestServer {
  import opened Handshake
  import opened HandshakeScript
  import opened Options
  import S = HandshakeServer

  /** The milestone the server is at. */
  function At(p: Params, s: S.Server, wait: Wait): (i: nat)
    ensures Live(p, i) || (p.neg.resumed && 2 <= i <= 9)
  {
    match s.state
    case StartAccept => 0
    case ReadClientHello => 0
    case SelectCertificate => 0
    case SelectParameters => 0
    case SendServerHello => 1
    case SendServerCertificate => 2
    case SendServerKeyExchange => 4
    case SendServerHelloDone => 5
    case ReadClientCertificate => 7
    case VerifyClientCertificate => 8
    case ReadClientKeyExchange => 8
    case ReadClientCertificateVerify => 9
    case ReadChangeCipherSpec => 10
    case ProcessChangeCipherSpec => if wait == ReadCcs then 10 else 11
    case ReadNextProto => 11
    case ReadChannelId => 12
    case ReadClientFinished => 13
    case SendServerFinished => 14
    case FinishServerHandshake => END
    case Done => END
  }

  /** The server waits for a message in this state. */
  predicate Wants(p: Params, s: S.State) {
    || s == S.ReadClientHello || s == S.ReadClientKeyExchange || s == S.ReadClientFinished
    || (s == S.ReadClientCertificate && p.certRequest)
    || (s == S.ReadClientCertificateVerify && p.certRequest && p.hasCert)
    || (s == S.ReadNextProto && p.neg.npn)
    || (s == S.ReadChannelId && p.neg.channelId)
  }

  predicate Sending(s: S.State) {
    || s == S.SendServerCertificate || s == S.SendServerKeyExchange || s == S.SendServerHelloDone
    || s == S.SendServerFinished
  }

  function ConfigOf(p: Params): S.Config {
    S.Config(p.neg, p.hint, p.certRequest, p.requireCert)
  }

  /** The client's Certificate, if any, has been read in this state. */
  predicate CertificateSeen(s: S.State) {
    !S.InHello(s) && !S.InServerFlight(s) && s != S.ReadClientCertificate
  }

  /** What holds of an honest server at every moment. */
  ghost predicate InScript(p: Params, s: S.Server, wait: Wait) {
    var i := At(p, s, wait);
    && Live(p, i) && s.cfg == ConfigOf(p) && s.io.transcript == Before(p, i)
    && s.peerCert == (p.certRequest && p.hasCert && CertificateSeen(s.state))
    && wait != Error
    && (wait == ReadMessage ==> Wants(p, s.state) && s.io.buf.None?)
    && (wait == ReadCcs ==> s.state == S.ProcessChangeCipherSpec)
    && (s.state == S.ProcessChangeCipherSpec || i == END ==> s.io.buf.None?)
    && (s.state == S.SelectCertificate || s.state == S.SelectParameters ==> s.io.buf == Some(ClientHello))
    && (wait != Flush && !Sending(s.state) ==> s.io.pending == [])
    && (wait == Flush ==> !Sending(s.state))
  }

  /** A step of the machine that keeps the server in the script. */
  ghost predicate Kept(p: Params, s: S.Server, wait: Wait, w: Wait, s': S.Server)
    requires Live(p, At(p, s, wait))
  {
    && InScript(p, s', w)
    && Moved(p, false, s.io, At(p, s, wait), s'.io, At(p, s', w))
  }

  // -- The server's steps ------------------------------------------------------------------------

  lemma HelloStep(p: Params, s: S.Server, wait: Wait, a: Answer)
    requires InScript(p, s, wait) && Runs(wait) && S.InHello(s.state) && a != Failed
    requires NextIn(p, s.io.buf, true, At(p, s, wait))
    ensures Kept(p, s, wait, S.DoHello(s, a).0, S.DoHello(s, a).1)
  {
    hide Out, Before, Piece, NextIn, Moved;
    PieceAt(p, 0);
    PassOne(p, 0);
    Stays(p, false, s.io, 0, 0);
    if s.io.buf.Some? {
      InHandIs(p, s.io.buf, true, 0);
      Consumes(p, false, s.io, 0, 1);
    }
  }

  lemma ServerHelloStep(p: Params, s: S.Server, wait: Wait, a: Answer)
    requires Consistent(p) && InScript(p, s, wait) && Runs(wait) && s.state == S.SendServerHello
    ensures Kept(p, s, wait, S.DoServerFlight(s, a).0, S.DoServerFlight(s, a).1)
  {
    hide Out, Before, Piece, Moved;
    PieceAt(p, 1);
    Stays(p, false, s.io, 1, 1);
    SendsIf(p, false, s.io, 1, s.io, 1, true, ServerHello(p.neg));
  }

  lemma CertificateStep(p: Params, s: S.Server, wait: Wait, a: Answer)
    requires Consistent(p) && InScript(p, s, wait) && Runs(wait) && s.state == S.SendServerCertificate
    ensures Kept(p, s, wait, S.DoServerFlight(s, a).0, S.DoServerFlight(s, a).1)
  {
    hide Out, Before, Piece, Moved, CertAuth;
    PieceAt(p, 2);
    PieceAt(p, 3);
    Stays(p, false, s.io, 2, 2);
    SendsIf(p, false, s.io, 2, s.io, 2, CertAuth(p.neg.kex), Certificate(true));
    SendsIf(p, false, s.io, 2, SendIf(s.io, CertAuth(p.neg.kex), Certificate(true)), 3, p.neg.ocsp, CertificateStatus);
  }

  lemma KeyExchangeStep(p: Params, s: S.Server, wait: Wait, a: Answer)
    requires InScript(p, s, wait) && Runs(wait) && s.state == S.SendServerKeyExchange && a != Failed
    ensures Kept(p, s, wait, S.DoServerFlight(s, a).0, S.DoServerFlight(s, a).1)
  {
    hide Out, Before, Piece, Moved;
    PieceAt(p, 4);
    Stays(p, false, s.io, 4, 4);
    SendsIf(p, false, s.io, 4, s.io, 4, Skx(p), ServerKeyExchange);
  }

  lemma HelloDoneStep(p: Params, s: S.Server, wait: Wait, a: Answer)
    requires InScript(p, s, wait) && Runs(wait) && s.state == S.SendServerHelloDone
    ensures Kept(p, s, wait, S.DoServerFlight(s, a).0, S.DoServerFlight(s, a).1)
  {
    hide Out, Before, Piece, Moved;
    PieceAt(p, 5);
    PieceAt(p, 6);
    Stays(p, false, s.io, 5, 5);
    SendsIf(p, false, s.io, 5, s.io, 5, p.certRequest, CertificateRequest);
    SendsIf(p, false, s.io, 5, SendIf(s.io, p.certRequest, CertificateRequest), 6, true, ServerHelloDone);
  }

  /** Reading the message of the milestone, or passing it over when it has none. */
  lemma ReadsPiece(p: Params, s: S.Server, wait: Wait, s': S.Server)
    requires InScript(p, s, wait) && Runs(wait) && At(p, s, wait) < END && ByClient(At(p, s, wait))
    requires NextIn(p, s.io.buf, true, At(p, s, wait))
    requires At(p, s', Ok) == Next(p, At(p, s, wait)) && s'.cfg == s.cfg && !Sending(s.state)
    requires s'.peerCert == (p.certRequest && p.hasCert && CertificateSeen(s'.state))
    requires !S.InHello(s'.state) && s'.state != S.ProcessChangeCipherSpec
    requires s'.io == if Piece(p, At(p, s, wait)).Some? && s.io.buf.Some? then Consume(s.io) else s.io
    requires Piece(p, At(p, s, wait)).Some? ==> s.io.buf.Some?
    requires At(p, s', Ok) == END ==> s'.io.buf.None?
    ensures Kept(p, s, wait, Ok, s')
  {
    hide Out, Before, Piece, NextIn, Moved;
    var i := At(p, s, wait);
    if Piece(p, i).Some? {
      PassOne(p, i);
      InHandIs(p, s.io.buf, true, i);
      Consumes(p, false, s.io, i, Next(p, i));
    } else {
      PassEmpty(p, i);
      Stays(p, false, s.io, i, Next(p, i));
    }
  }

  lemma ClientFlightStep(p: Params, s: S.Server, wait: Wait, a: Answer)
    requires Consistent(p) && InScript(p, s, wait) && Runs(wait) && S.InClientFlight(s.state) && a != Failed
    requires NextIn(p, s.io.buf, true, At(p, s, wait))
    ensures Kept(p, s, wait, S.DoClientFlight(s, a).0, S.DoClientFlight(s, a).1)
  {
    hide Out, Before, Piece, NextIn, Moved;
    var i := At(p, s, wait);
    var s' := S.DoClientFlight(s, a).1;
    PieceAt(p, i);
    Stays(p, false, s.io, i, i);
    if s.io.buf.Some? && Piece(p, i).Some? {
      InHandIs(p, s.io.buf, true, i);
    }
    if s' != s && s.state != S.VerifyClientCertificate {
      ReadsPiece(p, s, wait, s');
    }
  }

  lemma CipherStep(p: Params, s: S.Server, wait: Wait)
    requires InScript(p, s, wait) && Runs(wait)
    requires s.state == S.ReadChangeCipherSpec || s.state == S.ProcessChangeCipherSpec
        || s.state == S.FinishServerHandshake
    requires NextIn(p, s.io.buf, true, At(p, s, wait))
    ensures Kept(p, s, wait, S.DoEnd(s).0, S.DoEnd(s).1)
  {
    hide Out, Before, Piece, NextIn, Moved;
    var i := At(p, s, wait);
    Stays(p, false, s.io, i, i);
    if i == 10 && s.io.buf.Some? {
      PieceAt(p, 10);
      InHandIs(p, s.io.buf, true, 10);
    }
  }

  lemma ExtrasStep(p: Params, s: S.Server, wait: Wait)
    requires InScript(p, s, wait) && Runs(wait)
    requires s.state == S.ReadNextProto || s.state == S.ReadChannelId || s.state == S.ReadClientFinished
    requires NextIn(p, s.io.buf, true, At(p, s, wait))
    ensures Kept(p, s, wait, S.DoEnd(s).0, S.DoEnd(s).1)
  {
    hide Out, Before, Piece, NextIn, Moved;
    var i := At(p, s, wait);
    var s' := S.DoEnd(s).1;
    PieceAt(p, i);
    Stays(p, false, s.io, i, i);
    if s.io.buf.Some? && Piece(p, i).Some? {
      InHandIs(p, s.io.buf, true, i);
    }
    if s' != s {
      ReadsPiece(p, s, wait, s');
    }
  }

  /** In a full handshake nothing is left to read after the client's Finished. */
  lemma EndQuiet(p: Params, buf: Option<Msg>, i: nat)
    requires i == 14 && NextIn(p, buf, true, i)
    ensures !p.neg.resumed ==> buf.None?
  {
    if !p.neg.resumed {
      Pass(p, 14);
      Pass(p, 15);
      Pass(p, 16);
    }
  }

  lemma FinishedStep(p: Params, s: S.Server, wait: Wait)
    requires InScript(p, s, wait) && Runs(wait) && s.state == S.SendServerFinished
    requires NextIn(p, s.io.buf, true, At(p, s, wait))
    ensures Kept(p, s, wait, S.DoEnd(s).0, S.DoEnd(s).1)
  {
    hide Out, Before, Piece, NextIn, Moved;
    PieceAt(p, 14);
    PieceAt(p, 15);
    PieceAt(p, 16);
    EndQuiet(p, s.io.buf, 14);
    Stays(p, false, s.io, 14, 14);
    SendsIf(p, false, s.io, 14, s.io, 14, p.neg.ticket, NewSessionTicket);
    var io := SendIf(s.io, p.neg.ticket, NewSessionTicket);
    SendsCcs(p, false, s.io, 14, io, 15);
    SendsIf(p, false, s.io, 14, SendCcs(io), 16, true, Finished(true, SendCcs(io).transcript));
  }

  /** An honest server never rejects what the client sends next, and stays in the
      script. */
  lemma Step(p: Params, s: S.Server, wait: Wait, a: Answer)
    requires Consistent(p) && InScript(p, s, wait) && Runs(wait) && s.state != S.Done && a != Failed
    requires NextIn(p, s.io.buf, true, At(p, s, wait))
    ensures Kept(p, s, wait, S.Do(s, a).0, S.Do(s, a).1)
  {
    hide Out, Before, Piece, NextIn, Kept, InScript, S.DoHello, S.DoServerFlight, S.DoClientFlight, S.DoEnd;
    match s.state
    case SendServerHello => ServerHelloStep(p, s, wait, a);
    case SendServerCertificate => CertificateStep(p, s, wait, a);
    case SendServerKeyExchange => KeyExchangeStep(p, s, wait, a);
    case SendServerHelloDone => HelloDoneStep(p, s, wait, a);
    case ReadChangeCipherSpec => CipherStep(p, s, wait);
    case ProcessChangeCipherSpec => CipherStep(p, s, wait);
    case FinishServerHandshake => CipherStep(p, s, wait);
    case ReadNextProto => ExtrasStep(p, s, wait);
    case ReadChannelId => ExtrasStep(p, s, wait);
    case ReadClientFinished => ExtrasStep(p, s, wait);
    case SendServerFinished => FinishedStep(p, s, wait);
    case _ =>
      if S.InHello(s.state) {
        HelloStep(p, s, wait, a);
      } else {
        ClientFlightStep(p, s, wait, a);
      }
  }
}
