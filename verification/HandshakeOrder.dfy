/** What a side that completes a handshake has seen, whoever the peer is: the
    messages of section 7.3 of RFC 5246 that its flags call for, in their order,
    and no others. */
module HandshakeOrder {
  import opened Handshake
  import opened Options
  import C = HandshakeClient
  import S = HandshakeServer

  function If(t: seq<Msg>, cond: bool, m: Msg): seq<Msg> {
    if cond then t + [m] else t
  }

  /** A Finished message over all there is before it. */
  function Fin(t: seq<Msg>, byServer: bool): seq<Msg> {
    t + [Finished(byServer, t)]
  }

  function Hellos(neg: Neg): seq<Msg> {
    [ClientHello, ServerHello(neg)]
  }

  /** The messages after the client's ChangeCipherSpec. */
  function ClientEnd(t: seq<Msg>, neg: Neg): seq<Msg> {
    Fin(If(If(t, neg.npn, NextProto), neg.channelId, ChannelId), false)
  }

  /** Those that go with the server's ChangeCipherSpec. */
  function ServerEnd(t: seq<Msg>, neg: Neg): seq<Msg> {
    Fin(If(t, neg.ticket, NewSessionTicket), true)
  }

  // -- The client --------------------------------------------------------------------------------

  /** Which messages that the server may leave out have come. */
  datatype Came = Came(status: bool, skx: bool)

  /** The facts that say which messages there are. */
  datatype Facts = Facts(neg: Neg, certRequest: bool, hasCert: bool, came: Came)

  function FactsOf(c: C.Client, g: Came): Facts {
    Facts(c.neg, c.certRequest, c.cfg.hasCert, g)
  }

  /** The server's flight up to its `n`-th message. */
  function ServerFlight(f: Facts, n: nat): seq<Msg> {
    var certificate := If(Hellos(f.neg), n >= 1 && CertAuth(f.neg.kex), Certificate(true));
    var status := If(certificate, n >= 2 && f.came.status, CertificateStatus);
    var keyExchange := If(status, n >= 3 && f.came.skx, ServerKeyExchange);
    If(If(keyExchange, n >= 4 && f.certRequest, CertificateRequest), n >= 5, ServerHelloDone)
  }

  /** The client's, up to its `n`-th. */
  function ClientFlight(f: Facts, n: nat): seq<Msg> {
    var certificate := If(ServerFlight(f, 5), n >= 1 && f.certRequest, Certificate(f.hasCert));
    If(If(certificate, n >= 2, ClientKeyExchange), n >= 3 && f.certRequest && f.hasCert, CertificateVerify)
  }

  /** A whole handshake. */
  function ClientStory(f: Facts): seq<Msg> {
    if f.neg.resumed then ClientEnd(ServerEnd(Hellos(f.neg), f.neg), f.neg)
    else ServerEnd(ClientEnd(ClientFlight(f, 3), f.neg), f.neg)
  }

  /** Up to where the server's last messages are read. */
  function ClientHalf(f: Facts): seq<Msg> {
    if f.neg.resumed then Hellos(f.neg) else ClientEnd(ClientFlight(f, 3), f.neg)
  }

  /** What is in the transcript in each state. */
  function ClientSeen(s: C.State, f: Facts): seq<Msg> {
    match s
    case StartConnect => []
    case EnterEarlyData => [ClientHello]
    case ReadHelloVerifyRequest => [ClientHello]
    case ReadServerHello => [ClientHello]
    case ReadServerCertificate => ServerFlight(f, 0)
    case ReadCertificateStatus => ServerFlight(f, 1)
    case VerifyServerCertificate => ServerFlight(f, 2)
    case ReadServerKeyExchange => ServerFlight(f, 2)
    case ReadCertificateRequest => ServerFlight(f, 3)
    case ReadServerHelloDone => ServerFlight(f, 4)
    case SendClientCertificate => ClientFlight(f, 0)
    case SendClientKeyExchange => ClientFlight(f, 1)
    case SendClientCertificateVerify => ClientFlight(f, 2)
    case SendClientFinished => if f.neg.resumed then ServerEnd(Hellos(f.neg), f.neg) else ClientFlight(f, 3)
    case FinishFlight => if f.neg.resumed then ClientStory(f) else ClientHalf(f)
    case ReadSessionTicket => ClientHalf(f)
    case ProcessChangeCipherSpec => If(ClientHalf(f), f.neg.ticket, NewSessionTicket)
    case ReadServerFinished => If(ClientHalf(f), f.neg.ticket, NewSessionTicket)
    case FinishClientHandshake => ClientStory(f)
    case Done => ClientStory(f)
  }

  predicate BeforeRequest(s: C.State) {
    || C.InHello(s) || s == C.ReadServerCertificate || s == C.ReadCertificateStatus || s == C.VerifyServerCertificate
    || s == C.ReadServerKeyExchange || s == C.ReadCertificateRequest
  }

  predicate BeforeKeyExchange(s: C.State) {
    BeforeRequest(s) && s != C.ReadCertificateRequest
  }

  predicate BeforeStatus(s: C.State) {
    C.InHello(s) || s == C.ReadServerCertificate || s == C.ReadCertificateStatus
  }

  /** The states of a full handshake only, and of a resumption only. */
  predicate FullOnly(s: C.State) {
    C.InServerFlight(s) || s == C.SendClientCertificate || s == C.SendClientKeyExchange
        || s == C.SendClientCertificateVerify
  }

  /** What came was asked for, and what had to come came. */
  predicate ClientAllows(c: C.Client, g: Came) {
    && (BeforeStatus(c.state) ==> !g.status) && (BeforeKeyExchange(c.state) ==> !g.skx)
    && (BeforeRequest(c.state) ==> !c.certRequest)
    && (!C.InHello(c.state) ==> (c.neg.resumed ==> c.cfg.offered) && (c.neg.ocsp ==> CertAuth(c.neg.kex)))
    && (g.status ==> c.neg.ocsp) && (g.skx ==> c.neg.kex != Rsa) && (c.certRequest ==> CertAuth(c.neg.kex))
    && (!BeforeKeyExchange(c.state) && !c.neg.resumed && RequiresSkx(c.neg.kex) ==> g.skx)
    && (FullOnly(c.state) ==> !c.neg.resumed)
    && (c.neg.resumed && !C.InHello(c.state) ==> g == Came(false, false) && !c.certRequest)
  }

  predicate ClientInOrder(c: C.Client, g: Came) {
    ClientAllows(c, g) && c.io.transcript == ClientSeen(c.state, FactsOf(c, g))
  }

  function MoreCame(c: C.Client, g: Came): Came {
    Came(g.status || (c.state == C.ReadCertificateStatus && c.neg.ocsp && c.io.buf == Some(CertificateStatus)),
         g.skx || (c.state == C.ReadServerKeyExchange && c.io.buf == Some(ServerKeyExchange)))
  }

  lemma ServerFlightSteps(f: Facts)
    ensures ServerFlight(f, 0) == Hellos(f.neg)
    ensures ServerFlight(f, 1) == If(ServerFlight(f, 0), CertAuth(f.neg.kex), Certificate(true))
    ensures ServerFlight(f, 2) == If(ServerFlight(f, 1), f.came.status, CertificateStatus)
    ensures ServerFlight(f, 3) == If(ServerFlight(f, 2), f.came.skx, ServerKeyExchange)
    ensures ServerFlight(f, 4) == If(ServerFlight(f, 3), f.certRequest, CertificateRequest)
    ensures ServerFlight(f, 5) == ServerFlight(f, 4) + [ServerHelloDone]
  {
  }

  lemma ClientFlightSteps(f: Facts)
    ensures ClientFlight(f, 0) == ServerFlight(f, 5)
    ensures ClientFlight(f, 1) == If(ClientFlight(f, 0), f.certRequest, Certificate(f.hasCert))
    ensures ClientFlight(f, 2) == ClientFlight(f, 1) + [ClientKeyExchange]
    ensures ClientFlight(f, 3) == If(ClientFlight(f, 2), f.certRequest && f.hasCert, CertificateVerify)
  {
    hide ServerFlight;
  }

  /** What has been read so far does not depend on what is yet to come. */
  lemma ServerFlightSame(f: Facts, g: Facts, n: nat)
    requires f.neg == g.neg && (n >= 2 ==> f.came.status == g.came.status)
    requires (n >= 3 ==> f.came.skx == g.came.skx) && (n >= 4 ==> f.certRequest == g.certRequest)
    ensures ServerFlight(f, n) == ServerFlight(g, n)
  {
  }

  lemma ClientHelloAllows(c: C.Client, g: Came)
    requires C.InHello(c.state) && ClientAllows(c, g) && C.DoHello(c).0 != Error
    ensures ClientAllows(C.DoHello(c).1, MoreCame(c, g))
  {
    hide Send, Consume, CertAuth, RequiresSkx;
  }

  lemma ClientHelloSeen(c: C.Client, g: Came)
    requires C.InHello(c.state) && ClientInOrder(c, g) && C.DoHello(c).0 != Error
    ensures var c' := C.DoHello(c).1;
            c'.io.transcript == ClientSeen(c'.state, FactsOf(c', g))
  {
    hide ServerFlight, ClientFlight, ClientHalf, ServerEnd, ClientStory, CertAuth, RequiresSkx, ClientAllows;
    var f := FactsOf(C.DoHello(c).1, g);
    ServerFlightSteps(f);
    HalfIs(f);
  }

  lemma HalfIs(f: Facts)
    ensures f.neg.resumed ==> ClientHalf(f) == Hellos(f.neg)
    ensures !f.neg.resumed ==> ClientHalf(f) == ClientEnd(ClientFlight(f, 3), f.neg)
    ensures ClientStory(f) == if f.neg.resumed then ClientEnd(ServerEnd(ClientHalf(f), f.neg), f.neg)
                              else ServerEnd(ClientHalf(f), f.neg)
  {
    hide ClientFlight, ClientEnd, ServerEnd;
  }

  lemma ServerFlightAllows(c: C.Client, g: Came, a: Answer)
    requires C.InServerFlight(c.state) && ClientAllows(c, g) && C.DoServerFlight(c, a).0 != Error
    ensures ClientAllows(C.DoServerFlight(c, a).1, MoreCame(c, g))
  {
    hide Consume;
  }

  lemma NotYet(c: C.Client, g: Came)
    requires ClientAllows(c, g)
    ensures (c.state == C.ReadCertificateStatus ==> !g.status) && (c.state == C.ReadServerKeyExchange ==> !g.skx)
    ensures c.state == C.ReadCertificateRequest ==> !c.certRequest
  {
  }

  predicate FirstReads(s: C.State) {
    s == C.ReadServerCertificate || s == C.ReadCertificateStatus || s == C.VerifyServerCertificate
  }

  lemma FirstReadsSeen(c: C.Client, g: Came, a: Answer)
    requires FirstReads(c.state) && C.DoServerFlight(c, a).0 != Error
    requires c.io.transcript == ClientSeen(c.state, FactsOf(c, g)) && (c.state == C.ReadCertificateStatus ==> !g.status)
    ensures var c', g' := C.DoServerFlight(c, a).1, MoreCame(c, g);
            c'.io.transcript == ClientSeen(c'.state, FactsOf(c', g'))
  {
    hide ServerFlight, ClientFlight, ClientHalf, ServerEnd, ClientStory, CertAuth, RequiresSkx;
    var f, f' := FactsOf(c, g), FactsOf(C.DoServerFlight(c, a).1, MoreCame(c, g));
    ServerFlightSteps(f');
    if c.state == C.ReadServerCertificate {
      ServerFlightSame(f, f', 0);
    } else if c.state == C.ReadCertificateStatus {
      ServerFlightSame(f, f', 1);
    } else {
      ServerFlightSame(f, f', 2);
    }
  }

  lemma LaterReadsSeen(c: C.Client, g: Came, a: Answer)
    requires C.InServerFlight(c.state) && !FirstReads(c.state) && C.DoServerFlight(c, a).0 != Error
    requires c.io.transcript == ClientSeen(c.state, FactsOf(c, g)) && (c.state == C.ReadServerKeyExchange ==> !g.skx)
    requires c.state == C.ReadCertificateRequest ==> !c.certRequest
    ensures var c', g' := C.DoServerFlight(c, a).1, MoreCame(c, g);
            c'.io.transcript == ClientSeen(c'.state, FactsOf(c', g'))
  {
    hide ServerFlight, ClientFlight, ClientHalf, ServerEnd, ClientStory, CertAuth, RequiresSkx;
    var f, f' := FactsOf(c, g), FactsOf(C.DoServerFlight(c, a).1, MoreCame(c, g));
    ServerFlightSteps(f');
    ClientFlightSteps(f');
    if c.state == C.ReadServerKeyExchange {
      ServerFlightSame(f, f', 2);
    } else if c.state == C.ReadCertificateRequest {
      ServerFlightSame(f, f', 3);
    }
  }

  lemma ServerFlightSeen(c: C.Client, g: Came, a: Answer)
    requires C.InServerFlight(c.state) && C.DoServerFlight(c, a).0 != Error
    requires c.io.transcript == ClientSeen(c.state, FactsOf(c, g))
    requires (c.state == C.ReadCertificateStatus ==> !g.status) && (c.state == C.ReadServerKeyExchange ==> !g.skx)
    requires c.state == C.ReadCertificateRequest ==> !c.certRequest
    ensures var c', g' := C.DoServerFlight(c, a).1, MoreCame(c, g);
            c'.io.transcript == ClientSeen(c'.state, FactsOf(c', g'))
  {
    hide *;
    if FirstReads(c.state) {
      FirstReadsSeen(c, g, a);
    } else {
      LaterReadsSeen(c, g, a);
    }
  }

  lemma ClientFlightAllows(c: C.Client, g: Came, a: Answer)
    requires C.InClientFlight(c.state) && ClientAllows(c, g) && C.DoClientFlight(c, a).0 != Error
    ensures ClientAllows(C.DoClientFlight(c, a).1, MoreCame(c, g))
  {
    hide Send, C.ClientFinal;
  }

  lemma ClientFlightSeen(c: C.Client, g: Came, a: Answer)
    requires C.InClientFlight(c.state) && ClientInOrder(c, g) && C.DoClientFlight(c, a).0 != Error
    ensures var c' := C.DoClientFlight(c, a).1;
            c'.io.transcript == ClientSeen(c'.state, FactsOf(c', g))
  {
    hide ServerFlight, ClientFlight, ServerEnd, C.ClientFinal, ClientEnd, CertAuth, RequiresSkx;
    ClientFlightSteps(FactsOf(c, g));
    FinalIs(c);
  }

  lemma FinalIs(c: C.Client)
    ensures C.ClientFinal(c).transcript == ClientEnd(c.io.transcript, c.neg)
  {
  }

  lemma ClientEndAllows(c: C.Client, g: Came)
    requires !C.InHello(c.state) && !C.InServerFlight(c.state) && !C.InClientFlight(c.state)
    requires ClientAllows(c, g) && C.DoEnd(c).0 != Error
    ensures ClientAllows(C.DoEnd(c).1, g)
  {
    hide Consume;
  }

  lemma ClientEndSeen(c: C.Client, g: Came)
    requires !C.InHello(c.state) && !C.InServerFlight(c.state) && !C.InClientFlight(c.state)
    requires ClientInOrder(c, g) && C.DoEnd(c).0 != Error
    ensures var c' := C.DoEnd(c).1;
            c'.io.transcript == ClientSeen(c'.state, FactsOf(c', g))
  {
    hide ServerFlight, ClientFlight, ClientHalf, ClientStory, ClientEnd, ClientAllows, CertAuth, RequiresSkx;
    HalfIs(FactsOf(c, g));
  }

  /** Every step keeps a client in order. */
  lemma ClientStepOrder(c: C.Client, g: Came, a: Answer)
    requires ClientInOrder(c, g) && C.Do(c, a).0 != Error
    ensures ClientInOrder(C.Do(c, a).1, MoreCame(c, g))
  {
    hide ClientAllows, ClientSeen, C.DoHello, C.DoServerFlight, C.DoClientFlight, C.DoEnd;
    if C.InHello(c.state) {
      ClientHelloAllows(c, g);
      ClientHelloSeen(c, g);
    } else if C.InServerFlight(c.state) {
      ServerFlightAllows(c, g, a);
      NotYet(c, g);
      ServerFlightSeen(c, g, a);
    } else if C.InClientFlight(c.state) {
      ClientFlightAllows(c, g, a);
      ClientFlightSeen(c, g, a);
    } else {
      ClientEndAllows(c, g);
      ClientEndSeen(c, g);
    }
  }

  /** A turn of the machine, a message from whoever is on the other side, or a flush. */
  datatype Event = Turn(a: Answer) | Arrives(m: Msg) | Flushed

  function Take(io: Io, e: Event): Io
    requires !e.Turn?
  {
    match e
    case Arrives(m) => if io.buf.None? then io.(buf := Some(m)) else io
    case Flushed => io.(pending := [])
  }

  datatype ClientRun = ClientRun(c: C.Client, g: Came)

  /** None once a step has failed. */
  function ClientAfter(cfg: C.Config, neg: Neg, events: seq<Event>): Option<ClientRun> {
    if events == []
    then Some(ClientRun(C.Client(C.StartConnect, cfg, neg, false, Io([], [], None)), Came(false, false)))
    else
      var last := events[|events| - 1];
      match ClientAfter(cfg, neg, events[..|events| - 1])
      case None => None
      case Some(r) =>
        if !last.Turn? then Some(ClientRun(r.c.(io := Take(r.c.io, last)), r.g))
        else if C.Do(r.c, last.a).0 == Error then None
        else Some(ClientRun(C.Do(r.c, last.a).1, MoreCame(r.c, r.g)))
  }

  lemma ClientTakesInOrder(c: C.Client, g: Came, e: Event)
    requires ClientInOrder(c, g) && !e.Turn?
    ensures ClientInOrder(c.(io := Take(c.io, e)), g)
  {
    hide ClientSeen;
  }

  /** Whatever the peer sends and whenever the client runs, its transcript is in order;
      when it is done, it holds the whole handshake its flags call for. */
  lemma {:induction false} ClientAlwaysInOrder(cfg: C.Config, neg: Neg, events: seq<Event>)
    requires ClientAfter(cfg, neg, events).Some?
    ensures var r := ClientAfter(cfg, neg, events).value;
            && ClientInOrder(r.c, r.g)
            && (r.c.state == C.Done ==> r.c.io.transcript == ClientStory(FactsOf(r.c, r.g)))
  {
    if events != [] {
      hide ClientInOrder, Take, C.Do, ClientStory, MoreCame;
      var n := |events| - 1;
      ClientAlwaysInOrder(cfg, neg, events[..n]);
      var r := ClientAfter(cfg, neg, events[..n]).value;
      if events[n].Turn? {
        ClientStepOrder(r.c, r.g, events[n].a);
      } else {
        ClientTakesInOrder(r.c, r.g, events[n]);
      }
      DoneStory(ClientAfter(cfg, neg, events).value.c, ClientAfter(cfg, neg, events).value.g);
    }
  }

  lemma DoneStory(c: C.Client, g: Came)
    requires ClientInOrder(c, g)
    ensures c.state == C.Done ==> c.io.transcript == ClientStory(FactsOf(c, g))
  {
    hide ClientStory, ClientHalf, ServerFlight, ClientFlight;
  }

  // -- The server --------------------------------------------------------------------------------

  /** Its own flight, up to its `n`-th step. */
  function OwnFlight(cfg: S.Config, n: nat): seq<Msg> {
    var certificate := If(Hellos(cfg.neg), n >= 1 && CertAuth(cfg.neg.kex), Certificate(true));
    var status := If(certificate, n >= 1 && CertAuth(cfg.neg.kex) && cfg.neg.ocsp, CertificateStatus);
    var keyExchange := If(status, n >= 2 && S.SendsSkx(cfg), ServerKeyExchange);
    If(If(keyExchange, n >= 3 && cfg.certRequest, CertificateRequest), n >= 3, ServerHelloDone)
  }

  /** The client's flight, up to its `n`-th message. */
  function PeerFlight(cfg: S.Config, peerCert: bool, n: nat): seq<Msg> {
    var certificate := If(OwnFlight(cfg, 3), n >= 1 && cfg.certRequest, Certificate(peerCert));
    If(If(certificate, n >= 2, ClientKeyExchange), n >= 3 && peerCert, CertificateVerify)
  }

  /** Up to the client's ChangeCipherSpec. */
  function ServerHalf(cfg: S.Config, peerCert: bool): seq<Msg> {
    if cfg.neg.resumed then ServerEnd(Hellos(cfg.neg), cfg.neg) else PeerFlight(cfg, peerCert, 3)
  }

  function ServerStory(cfg: S.Config, peerCert: bool): seq<Msg> {
    var t := ClientEnd(ServerHalf(cfg, peerCert), cfg.neg);
    if cfg.neg.resumed then t else ServerEnd(t, cfg.neg)
  }

  function ServerSeen(s: S.State, cfg: S.Config, peerCert: bool): seq<Msg> {
    match s
    case StartAccept => []
    case ReadClientHello => []
    case SelectCertificate => []
    case SelectParameters => []
    case SendServerHello => [ClientHello]
    case SendServerCertificate => OwnFlight(cfg, 0)
    case SendServerKeyExchange => OwnFlight(cfg, 1)
    case SendServerHelloDone => OwnFlight(cfg, 2)
    case ReadClientCertificate => PeerFlight(cfg, peerCert, 0)
    case VerifyClientCertificate => PeerFlight(cfg, peerCert, 1)
    case ReadClientKeyExchange => PeerFlight(cfg, peerCert, 1)
    case ReadClientCertificateVerify => PeerFlight(cfg, peerCert, 2)
    case ReadChangeCipherSpec => ServerHalf(cfg, peerCert)
    case ProcessChangeCipherSpec => ServerHalf(cfg, peerCert)
    case ReadNextProto => ServerHalf(cfg, peerCert)
    case ReadChannelId => If(ServerHalf(cfg, peerCert), cfg.neg.npn, NextProto)
    case ReadClientFinished =>
      If(If(ServerHalf(cfg, peerCert), cfg.neg.npn, NextProto), cfg.neg.channelId, ChannelId)
    case SendServerFinished =>
      if cfg.neg.resumed then Hellos(cfg.neg) else ClientEnd(ServerHalf(cfg, peerCert), cfg.neg)
    case FinishServerHandshake => ServerStory(cfg, peerCert)
    case Done => ServerStory(cfg, peerCert)
  }

  predicate BeforeCertificate(s: S.State) {
    S.InHello(s) || S.InServerFlight(s) || s == S.ReadClientCertificate
  }

  predicate ServerFullOnly(s: S.State) {
    (S.InServerFlight(s) && s != S.SendServerHello) || S.InClientFlight(s)
  }

  predicate ServerAllows(s: S.Server) {
    && (BeforeCertificate(s.state) ==> !s.peerCert) && (ServerFullOnly(s.state) ==> !s.cfg.neg.resumed)
    && (s.peerCert ==> s.cfg.certRequest && !s.cfg.neg.resumed)
    && (!BeforeCertificate(s.state) && !s.cfg.neg.resumed && s.cfg.certRequest && s.cfg.requireCert ==> s.peerCert)
    && (s.state == S.SelectCertificate || s.state == S.SelectParameters ==> s.io.buf == Some(ClientHello))
  }

  lemma OwnFlightSteps(cfg: S.Config)
    ensures OwnFlight(cfg, 0) == Hellos(cfg.neg)
    ensures OwnFlight(cfg, 1) == if CertAuth(cfg.neg.kex)
                                 then If(OwnFlight(cfg, 0) + [Certificate(true)], cfg.neg.ocsp, CertificateStatus)
                                 else OwnFlight(cfg, 0)
    ensures OwnFlight(cfg, 2) == If(OwnFlight(cfg, 1), S.SendsSkx(cfg), ServerKeyExchange)
    ensures OwnFlight(cfg, 3) == If(OwnFlight(cfg, 2), cfg.certRequest, CertificateRequest) + [ServerHelloDone]
  {
    hide S.SendsSkx;
  }

  lemma PeerFlightSteps(cfg: S.Config, peerCert: bool)
    ensures PeerFlight(cfg, peerCert, 0) == OwnFlight(cfg, 3)
    ensures PeerFlight(cfg, peerCert, 1) == If(PeerFlight(cfg, peerCert, 0), cfg.certRequest, Certificate(peerCert))
    ensures PeerFlight(cfg, peerCert, 2) == PeerFlight(cfg, peerCert, 1) + [ClientKeyExchange]
    ensures PeerFlight(cfg, peerCert, 3) == If(PeerFlight(cfg, peerCert, 2), peerCert, CertificateVerify)
  {
    hide OwnFlight;
  }

  lemma ServerHalfIs(cfg: S.Config, peerCert: bool)
    ensures ServerHalf(cfg, peerCert) ==
            if cfg.neg.resumed then ServerEnd(Hellos(cfg.neg), cfg.neg) else PeerFlight(cfg, peerCert, 3)
    ensures ServerStory(cfg, peerCert) ==
            if cfg.neg.resumed then ClientEnd(ServerHalf(cfg, peerCert), cfg.neg)
            else ServerEnd(ClientEnd(ServerHalf(cfg, peerCert), cfg.neg), cfg.neg)
  {
    hide PeerFlight, ServerEnd, ClientEnd;
  }

  lemma ServerHelloAllows(s: S.Server, a: Answer)
    requires S.InHello(s.state) && ServerAllows(s) && S.DoHello(s, a).0 != Error
    ensures ServerAllows(S.DoHello(s, a).1)
  {
    hide Consume;
  }

  lemma OwnFlightAllows(s: S.Server, a: Answer)
    requires S.InServerFlight(s.state) && ServerAllows(s) && S.DoServerFlight(s, a).0 != Error
    ensures ServerAllows(S.DoServerFlight(s, a).1)
  {
    hide Send, S.ServerCertificates, CertAuth, S.SendsSkx;
  }

  lemma PeerFlightAllows(s: S.Server, a: Answer)
    requires S.InClientFlight(s.state) && ServerAllows(s) && S.DoClientFlight(s, a).0 != Error
    ensures ServerAllows(S.DoClientFlight(s, a).1)
  {
    hide Consume;
  }

  lemma ServerEndAllows(s: S.Server)
    requires !S.InHello(s.state) && !S.InServerFlight(s.state) && !S.InClientFlight(s.state)
    requires ServerAllows(s) && S.DoEnd(s).0 != Error
    ensures ServerAllows(S.DoEnd(s).1)
  {
    hide Consume, S.ServerFinal, Send, CertAuth, S.SendsSkx;
  }

  lemma ServerAllowsStep(s: S.Server, a: Answer)
    requires ServerAllows(s) && S.Do(s, a).0 != Error
    ensures ServerAllows(S.Do(s, a).1)
  {
    hide ServerAllows, S.DoHello, S.DoServerFlight, S.DoClientFlight, S.DoEnd;
    if S.InHello(s.state) {
      ServerHelloAllows(s, a);
    } else if S.InServerFlight(s.state) {
      OwnFlightAllows(s, a);
    } else if S.InClientFlight(s.state) {
      PeerFlightAllows(s, a);
    } else {
      ServerEndAllows(s);
    }
  }

  /** The transcript is that of the state. */
  predicate ServerSaw(s: S.Server) {
    s.io.transcript == ServerSeen(s.state, s.cfg, s.peerCert)
  }

  lemma ServerHelloSeen(s: S.Server, a: Answer)
    requires S.InHello(s.state) && S.DoHello(s, a).0 != Error && ServerSaw(s)
    requires s.state == S.SelectParameters ==> s.io.buf == Some(ClientHello)
    ensures ServerSaw(S.DoHello(s, a).1)
  {
    hide OwnFlight, PeerFlight, ServerHalf, ServerStory, ClientEnd;
  }

  lemma OwnFlightSeen(s: S.Server, a: Answer)
    requires S.InServerFlight(s.state) && S.DoServerFlight(s, a).0 != Error && ServerSaw(s)
    requires s.state != S.SendServerHello ==> !s.cfg.neg.resumed
    ensures ServerSaw(S.DoServerFlight(s, a).1)
  {
    hide OwnFlight, PeerFlight, ServerHalf, ServerStory, ClientEnd, S.SendsSkx;
    OwnFlightSteps(s.cfg);
    PeerFlightSteps(s.cfg, s.peerCert);
  }

  lemma PeerFlightSeen(s: S.Server, a: Answer)
    requires S.InClientFlight(s.state) && S.DoClientFlight(s, a).0 != Error && ServerSaw(s)
    requires !s.cfg.neg.resumed && (s.state == S.ReadClientCertificate ==> !s.peerCert)
    ensures ServerSaw(S.DoClientFlight(s, a).1)
  {
    hide OwnFlight, PeerFlight, ServerHalf, ServerStory, ClientEnd, CertAuth;
    PeerFlightSteps(s.cfg, s.peerCert);
    PeerFlightSteps(s.cfg, S.DoClientFlight(s, a).1.peerCert);
    ServerHalfIs(s.cfg, s.peerCert);
  }

  lemma ServerEndSeen(s: S.Server)
    requires !S.InHello(s.state) && !S.InServerFlight(s.state) && !S.InClientFlight(s.state)
    requires S.DoEnd(s).0 != Error && ServerSaw(s)
    ensures ServerSaw(S.DoEnd(s).1)
  {
    hide OwnFlight, PeerFlight, ServerHalf, ServerStory, ServerEnd, S.ServerFinal, ServerAllows, CertAuth, S.SendsSkx;
    ServerHalfIs(s.cfg, s.peerCert);
    ServerFinalIs(s);
    if s.state != S.ReadClientFinished {
      hide ClientEnd, Hellos;
    }
  }

  lemma ServerFinalIs(s: S.Server)
    ensures S.ServerFinal(s).transcript == ServerEnd(s.io.transcript, s.cfg.neg)
  {
  }

  lemma ServerNotYet(s: S.Server)
    requires ServerAllows(s)
    ensures (ServerFullOnly(s.state) ==> !s.cfg.neg.resumed) && (s.state == S.ReadClientCertificate ==> !s.peerCert)
    ensures s.state == S.SelectParameters ==> s.io.buf == Some(ClientHello)
  {
  }

  /** Every step keeps a server in order. */
  lemma ServerStepOrder(s: S.Server, a: Answer)
    requires ServerAllows(s) && ServerSaw(s) && S.Do(s, a).0 != Error
    ensures ServerAllows(S.Do(s, a).1) && ServerSaw(S.Do(s, a).1)
  {
    hide ServerAllows, ServerSaw, S.DoHello, S.DoServerFlight, S.DoClientFlight, S.DoEnd;
    ServerAllowsStep(s, a);
    ServerNotYet(s);
    if S.InHello(s.state) {
      ServerHelloSeen(s, a);
    } else if S.InServerFlight(s.state) {
      OwnFlightSeen(s, a);
    } else if S.InClientFlight(s.state) {
      PeerFlightSeen(s, a);
    } else {
      ServerEndSeen(s);
    }
  }

  function ServerAfter(cfg: S.Config, events: seq<Event>): Option<S.Server> {
    if events == [] then Some(S.Server(S.StartAccept, cfg, false, Io([], [], None)))
    else
      var last := events[|events| - 1];
      match ServerAfter(cfg, events[..|events| - 1])
      case None => None
      case Some(s) =>
        if !last.Turn? then Some(s.(io := Take(s.io, last)))
        else if S.Do(s, last.a).0 == Error then None
        else Some(S.Do(s, last.a).1)
  }

  lemma ServerTakesInOrder(s: S.Server, e: Event)
    requires ServerAllows(s) && ServerSaw(s) && !e.Turn?
    ensures ServerAllows(s.(io := Take(s.io, e))) && ServerSaw(s.(io := Take(s.io, e)))
  {
    hide ServerSeen;
  }

  /** Whatever the peer sends and whenever the server runs, its transcript is in order;
      when it is done, it holds the whole handshake, with a client certificate if it
      insists on one. */
  lemma {:induction false} ServerAlwaysInOrder(cfg: S.Config, events: seq<Event>)
    requires ServerAfter(cfg, events).Some?
    ensures var s := ServerAfter(cfg, events).value;
            && ServerAllows(s) && ServerSaw(s) && s.cfg == cfg
            && (s.state == S.Done ==>
                  && s.io.transcript == ServerStory(cfg, s.peerCert)
                  && (cfg.certRequest && cfg.requireCert && !cfg.neg.resumed ==> s.peerCert))
  {
    if events != [] {
      var n := |events| - 1;
      ServerAlwaysInOrder(cfg, events[..n]);
      var s := ServerAfter(cfg, events[..n]).value;
      hide ServerAllows, ServerSaw, Take, ServerStory;
      if events[n].Turn? {
        ServerStepOrder(s, events[n].a);
        SameConfig(s, events[n].a);
      } else {
        ServerTakesInOrder(s, events[n]);
      }
      hide S.Do, ServerAfter;
      ServerDone(ServerAfter(cfg, events).value);
    }
  }

  lemma SameConfig(s: S.Server, a: Answer)
    ensures S.Do(s, a).1.cfg == s.cfg
  {
    hide Send, Consume, S.ServerFinal, S.ServerCertificates, CertAuth, S.SendsSkx;
    if S.InHello(s.state) {
    } else if S.InServerFlight(s.state) {
    } else if S.InClientFlight(s.state) {
    } else {
    }
  }

  lemma ServerDone(s: S.Server)
    requires ServerAllows(s) && ServerSaw(s)
    ensures s.state == S.Done ==>
              && s.io.transcript == ServerStory(s.cfg, s.peerCert)
              && (s.cfg.certRequest && s.cfg.requireCert && !s.cfg.neg.resumed ==> s.peerCert)
  {
    hide ServerStory, ServerHalf, PeerFlight, OwnFlight;
  }

  // -- Both together -----------------------------------------------------------------------------

  /** What a server's handshake looks like to its client. */
  function FactsFor(cfg: S.Config, peerCert: bool): Facts {
    Facts(cfg.neg, cfg.certRequest, peerCert, Came(cfg.neg.ocsp, S.SendsSkx(cfg)))
  }

  lemma FlightsMatch(cfg: S.Config, peerCert: bool)
    requires (cfg.neg.ocsp ==> CertAuth(cfg.neg.kex)) && (peerCert ==> cfg.certRequest)
    ensures ServerFlight(FactsFor(cfg, peerCert), 5) == OwnFlight(cfg, 3)
    ensures ClientFlight(FactsFor(cfg, peerCert), 3) == PeerFlight(cfg, peerCert, 3)
  {
    hide S.SendsSkx, CertAuth;
  }

  /** The two stories are the same: a server's handshake is one that a client can
      have completed. */
  lemma SameStory(cfg: S.Config, peerCert: bool)
    requires (cfg.neg.ocsp ==> CertAuth(cfg.neg.kex)) && (peerCert ==> cfg.certRequest)
    ensures ServerStory(cfg, peerCert) == ClientStory(FactsFor(cfg, peerCert))
  {
    hide ServerFlight, ClientFlight, OwnFlight, PeerFlight, ClientEnd, ServerEnd, S.SendsSkx;
    FlightsMatch(cfg, peerCert);
  }
}
