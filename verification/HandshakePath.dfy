/** The states each machine passes through, whoever the peer is, what it waits for after
    each, and the application's answers it cannot do without. */
module HandshakePath {
  import opened Handshake
  import opened HandshakeOrder
  import opened Options
  import C = HandshakeClient
  import S = HandshakeServer

  // -- The client --------------------------------------------------------------------------------

  /** The state after `s`. */
  function ClientNext(s: C.State, dtls: bool, resumed: bool): C.State {
    match s
    case StartConnect => C.EnterEarlyData
    case EnterEarlyData => if dtls then C.ReadHelloVerifyRequest else C.ReadServerHello
    case ReadHelloVerifyRequest => C.ReadServerHello
    case ReadServerHello => if resumed then C.ReadSessionTicket else C.ReadServerCertificate
    case ReadServerCertificate => C.ReadCertificateStatus
    case ReadCertificateStatus => C.VerifyServerCertificate
    case VerifyServerCertificate => C.ReadServerKeyExchange
    case ReadServerKeyExchange => C.ReadCertificateRequest
    case ReadCertificateRequest => C.ReadServerHelloDone
    case ReadServerHelloDone => C.SendClientCertificate
    case SendClientCertificate => C.SendClientKeyExchange
    case SendClientKeyExchange => C.SendClientCertificateVerify
    case SendClientCertificateVerify => C.SendClientFinished
    case SendClientFinished => C.FinishFlight
    case FinishFlight => if resumed then C.FinishClientHandshake else C.ReadSessionTicket
    case ReadSessionTicket => C.ProcessChangeCipherSpec
    case ProcessChangeCipherSpec => C.ReadServerFinished
    case ReadServerFinished => if resumed then C.SendClientFinished else C.FinishClientHandshake
    case FinishClientHandshake => C.Done
    case Done => C.Done
  }

  /** What the client waits for when it goes on: a flush after what it sends last, the
      ChangeCipherSpec before the server's Finished; and false start returns early. */
  function ClientWait(c: C.Client): Wait {
    match c.state
    case StartConnect => Flush
    case ReadHelloVerifyRequest => if c.io.buf == Some(HelloVerifyRequest) then Flush else Ok
    case SendClientFinished => Flush
    case FinishFlight => if !c.neg.resumed && c.cfg.falseStart && !c.cfg.dtls then EarlyReturn else Ok
    case ReadSessionTicket => ReadCcs
    case _ => Ok
  }

  /** The states in which the application decides: it verifies the server's certificate,
      chooses the client's, signs with its key, or provides the Channel ID key. */
  predicate ClientAsks(s: C.State, c: C.Client) {
    match s
    case VerifyServerCertificate => CertAuth(c.neg.kex)
    case SendClientCertificate => c.certRequest
    case SendClientCertificateVerify => c.certRequest && c.cfg.hasCert
    case SendClientFinished => c.neg.channelId
    case _ => false
  }

  /** Where an answer that is asked for ends the handshake, suspends it or lets it go on. */
  lemma ClientAnswers(c: C.Client, a: Answer)
    requires ClientAsks(c.state, c)
    ensures a == Failed ==> C.Do(c, a).0 == Error
    ensures a == Retry ==> C.Do(c, a) == (Callback, c)
    ensures a == Ready ==> C.Do(c, a).0 != Error && C.Do(c, a).1.state == ClientNext(c.state, c.cfg.dtls, c.neg.resumed)
  {
    hide Send, C.ClientFinal;
  }

  /** A ClientKeyExchange that cannot be made ends it too; in no other state does the
      answer matter. */
  lemma ClientIgnores(c: C.Client, a: Answer)
    requires !ClientAsks(c.state, c)
    ensures if c.state == C.SendClientKeyExchange && a == Failed then C.Do(c, a).0 == Error
            else C.Do(c, a) == C.Do(c, Ready)
  {
    hide Send, C.ClientFinal, Consume;
  }

  /** A step that goes on goes to the next state, with that wait. */
  predicate ClientGoes(c: C.Client, a: Answer, wait: Wait, c': C.Client) {
    && c'.cfg == c.cfg && c'.state == ClientNext(c.state, c.cfg.dtls, c'.neg.resumed)
    && wait == ClientWait(c) && (ClientAsks(c.state, c) ==> a == Ready)
    && (c.state != C.ReadServerHello ==> c'.neg == c.neg)
    && (c.state != C.ReadCertificateRequest ==> c'.certRequest == c.certRequest)
    && (c.state == C.ProcessChangeCipherSpec ==> c.io.buf == None)
  }

  lemma HelloGoes(c: C.Client, a: Answer)
    requires C.InHello(c.state) && C.DoHello(c).0 != Error && C.DoHello(c).1.state != c.state
    ensures ClientGoes(c, a, C.DoHello(c).0, C.DoHello(c).1)
  {
    hide Send, Consume, CertAuth;
  }

  lemma ServerFlightGoes(c: C.Client, a: Answer)
    requires C.InServerFlight(c.state) && C.DoServerFlight(c, a).0 != Error && C.DoServerFlight(c, a).1.state != c.state
    ensures ClientGoes(c, a, C.DoServerFlight(c, a).0, C.DoServerFlight(c, a).1)
  {
    hide Send, Consume, CertAuth, RequiresSkx;
  }

  lemma ClientFlightGoes(c: C.Client, a: Answer)
    requires C.InClientFlight(c.state) && C.DoClientFlight(c, a).0 != Error && C.DoClientFlight(c, a).1.state != c.state
    ensures ClientGoes(c, a, C.DoClientFlight(c, a).0, C.DoClientFlight(c, a).1)
  {
    hide Send, C.ClientFinal, Consume;
  }

  lemma EndGoes(c: C.Client, a: Answer)
    requires !C.InHello(c.state) && !C.InServerFlight(c.state) && !C.InClientFlight(c.state)
    requires C.DoEnd(c).0 != Error && C.DoEnd(c).1.state != c.state
    ensures ClientGoes(c, a, C.DoEnd(c).0, C.DoEnd(c).1)
  {
    hide Send, Consume;
  }

  lemma ClientGoesOn(c: C.Client, a: Answer)
    requires C.Do(c, a).0 != Error && C.Do(c, a).1.state != c.state
    ensures ClientGoes(c, a, C.Do(c, a).0, C.Do(c, a).1)
  {
    hide ClientGoes, C.DoHello, C.DoServerFlight, C.DoClientFlight, C.DoEnd;
    if C.InHello(c.state) {
      HelloGoes(c, a);
    } else if C.InServerFlight(c.state) {
      ServerFlightGoes(c, a);
    } else if C.InClientFlight(c.state) {
      ClientFlightGoes(c, a);
    } else {
      EndGoes(c, a);
    }
  }

  /** The states of this handshake. */
  predicate ClientVisits(s: C.State, cfg: C.Config, neg: Neg) {
    (s == C.ReadHelloVerifyRequest ==> cfg.dtls) && (FullOnly(s) ==> !neg.resumed)
  }

  function ClientRank(s: C.State, c: C.Client): nat {
    C.Rank(s, c.neg.resumed)
  }

  /** No state of the handshake lies between a state and the next. */
  lemma ClientSkipsNone(s: C.State, x: C.State, cfg: C.Config, neg: Neg)
    requires ClientVisits(s, cfg, neg) && ClientVisits(x, cfg, neg)
    ensures C.Rank(s, neg.resumed) < C.Rank(x, neg.resumed) ==>
              C.Rank(ClientNext(s, cfg.dtls, neg.resumed), neg.resumed) <= C.Rank(x, neg.resumed)
    ensures C.Rank(s, neg.resumed) == C.Rank(x, neg.resumed) ==> s == x
    ensures ClientVisits(ClientNext(s, cfg.dtls, neg.resumed), cfg, neg)
  {
  }

  /** At event `k` the client leaves state `x`, with its application ready if it is asked. */
  predicate ClientLeaves(cfg: C.Config, neg: Neg, events: seq<Event>, k: nat, x: C.State, asks: bool) {
    && k < |events| && events[k].Turn? && (asks ==> events[k].a == Ready)
    && ClientAfter(cfg, neg, events[..k]).Some? && ClientAfter(cfg, neg, events[..k]).value.c.state == x
  }

  lemma ClientLeavesLater(cfg: C.Config, neg: Neg, events: seq<Event>, k: nat, x: C.State, asks: bool)
    requires events != [] && ClientLeaves(cfg, neg, events[..|events| - 1], k, x, asks)
    ensures ClientLeaves(cfg, neg, events, k, x, asks)
  {
    assert events[..|events| - 1][..k] == events[..k];
  }

  /** Whatever the peer sends: a client has been in every state of its handshake before the
      one it is in, and has left it with its application ready wherever that is asked.  So
      with a certificate cipher none gets past VerifyServerCertificate, let alone to the
      end, unless the certificate was accepted. */
  lemma {:induction false} ClientVisitsAll(cfg: C.Config, neg: Neg, events: seq<Event>, x: C.State) returns (k: nat)
    requires ClientAfter(cfg, neg, events).Some?
    requires var c := ClientAfter(cfg, neg, events).value.c;
             ClientVisits(x, cfg, c.neg) && ClientRank(x, c) < ClientRank(c.state, c)
    ensures ClientLeaves(cfg, neg, events, k, x, ClientAsks(x, ClientAfter(cfg, neg, events).value.c))
  {
    hide C.Do, C.Rank, ClientNext, FullOnly, MoreCame, Take;
    StartsFirst(x);
    var n := |events| - 1;
    var c, c' := ClientAfter(cfg, neg, events[..n]).value.c, ClientAfter(cfg, neg, events).value.c;
    ClientOnPath(cfg, neg, events[..n]);
    if events[n].Turn? && c'.state != c.state {
      ClientGoesOn(c, events[n].a);
      NextOnPath(c, c');
      ClientSkipsNone(c.state, x, cfg, c'.neg);
      SameBefore(c, c', x);
      if x == c.state {
        return n;
      }
    } else {
      ClientStays(c, events[n]);
    }
    k := ClientVisitsAll(cfg, neg, events[..n], x);
    ClientLeavesLater(cfg, neg, events, k, x, ClientAsks(x, c'));
  }

  lemma StartsFirst(x: C.State)
    ensures forall resumed :: C.Rank(x, resumed) >= C.Rank(C.StartConnect, resumed)
  {
  }

  /** What a step changes does not matter to the states before it. */
  lemma SameBefore(c: C.Client, c': C.Client, x: C.State)
    requires ClientVisits(c.state, c.cfg, c'.neg) && c'.cfg == c.cfg && ClientVisits(x, c.cfg, c'.neg)
    requires c.state != C.ReadServerHello ==> c'.neg == c.neg
    requires c.state != C.ReadCertificateRequest ==> c'.certRequest == c.certRequest
    requires C.Rank(x, c'.neg.resumed) <= C.Rank(c.state, c'.neg.resumed)
    ensures ClientAsks(x, c') == ClientAsks(x, c) && ClientVisits(x, c.cfg, c.neg)
    ensures C.Rank(x, c.neg.resumed) == C.Rank(x, c'.neg.resumed)
    ensures C.Rank(c.state, c.neg.resumed) == C.Rank(c.state, c'.neg.resumed)
  {
  }

  lemma ClientStays(c: C.Client, e: Event)
    requires e.Turn? ==> C.Do(c, e.a).0 != Error && C.Do(c, e.a).1.state == c.state
    ensures e.Turn? ==> C.Do(c, e.a).1 == c
  {
    if e.Turn? {
      C.SuspendedUnchanged(c, e.a);
    }
  }

  lemma {:induction false} ClientOnPath(cfg: C.Config, neg: Neg, events: seq<Event>)
    requires ClientAfter(cfg, neg, events).Some?
    ensures var c := ClientAfter(cfg, neg, events).value.c; c.cfg == cfg && ClientVisits(c.state, cfg, c.neg)
  {
    if events != [] {
      hide C.Do, C.Rank, ClientNext, FullOnly, MoreCame, Take;
      var n := |events| - 1;
      ClientOnPath(cfg, neg, events[..n]);
      var c := ClientAfter(cfg, neg, events[..n]).value.c;
      if events[n].Turn? {
        if C.Do(c, events[n].a).1.state == c.state {
          ClientStays(c, events[n]);
        } else {
          ClientGoesOn(c, events[n].a);
          NextOnPath(c, C.Do(c, events[n].a).1);
        }
      }
    }
  }

  lemma NextOnPath(c: C.Client, c': C.Client)
    requires ClientVisits(c.state, c.cfg, c.neg) && (c.state != C.ReadServerHello ==> c'.neg == c.neg)
    ensures ClientVisits(ClientNext(c.state, c.cfg.dtls, c'.neg.resumed), c.cfg, c'.neg)
    ensures ClientVisits(c.state, c.cfg, c'.neg)
  {
  }

  /** So a client that has completed a full handshake with a certificate cipher has had
      the certificate accepted. */
  lemma CertificateAccepted(cfg: C.Config, neg: Neg, events: seq<Event>) returns (k: nat)
    requires ClientAfter(cfg, neg, events).Some?
    requires var c := ClientAfter(cfg, neg, events).value.c;
             !c.neg.resumed && CertAuth(c.neg.kex) && C.Rank(C.VerifyServerCertificate, false) < C.Rank(c.state, false)
    ensures k < |events| && events[k] == Turn(Ready) && ClientAfter(cfg, neg, events[..k]).Some?
    ensures ClientAfter(cfg, neg, events[..k]).value.c.state == C.VerifyServerCertificate
  {
    k := ClientVisitsAll(cfg, neg, events, C.VerifyServerCertificate);
  }

  /** A turn that is answered with a failure where the answer counts ends the run, and one
      to be retried leaves the client where it is. */
  lemma ClientAnswered(cfg: C.Config, neg: Neg, events: seq<Event>)
    requires ClientAfter(cfg, neg, events).Some?
    requires var c := ClientAfter(cfg, neg, events).value.c; ClientAsks(c.state, c)
    ensures ClientAfter(cfg, neg, events + [Turn(Failed)]) == None
    ensures ClientAfter(cfg, neg, events + [Turn(Retry)]).Some?
    ensures ClientAfter(cfg, neg, events + [Turn(Retry)]).value.c == ClientAfter(cfg, neg, events).value.c
  {
    hide C.Do;
    ClientAnswers(ClientAfter(cfg, neg, events).value.c, Failed);
    ClientAnswers(ClientAfter(cfg, neg, events).value.c, Retry);
    assert (events + [Turn(Failed)])[..|events|] == events && (events + [Turn(Retry)])[..|events|] == events;
  }

  /** Ciphers that authenticate with a certificate, and those that need a ServerKeyExchange. */
  predicate WithCertificate(kex: Kex) {
    kex == Rsa || kex == Ecdhe
  }

  predicate Ephemeral(kex: Kex) {
    kex == Ecdhe || kex == EcdhePsk
  }

  predicate Unless(buf: Option<Msg>, m: Msg) {
    buf.Some? && buf.value != m
  }

  /** What a client refuses: in each state the messages that must not come there, an answer
      that says no, and a message left over when the keys change. */
  predicate ClientRefuses(c: C.Client, a: Answer) {
    match c.state
    case ReadServerHello =>
      c.io.buf.Some? && (!c.io.buf.value.ServerHello?
                         || (c.io.buf.value.neg.resumed && !c.cfg.offered)
                         || (c.io.buf.value.neg.ocsp && !WithCertificate(c.io.buf.value.neg.kex)))
    case ReadServerCertificate => WithCertificate(c.neg.kex) && Unless(c.io.buf, Certificate(true))
    case VerifyServerCertificate => WithCertificate(c.neg.kex) && a == Failed
    case ReadServerKeyExchange =>
      if c.io.buf == Some(ServerKeyExchange) then c.neg.kex == Rsa else c.io.buf.Some? && Ephemeral(c.neg.kex)
    case ReadCertificateRequest =>
      WithCertificate(c.neg.kex) && Unless(c.io.buf, CertificateRequest) && Unless(c.io.buf, ServerHelloDone)
    case ReadServerHelloDone => Unless(c.io.buf, ServerHelloDone)
    case SendClientCertificate => c.certRequest && a == Failed
    case SendClientKeyExchange => a == Failed
    case SendClientCertificateVerify => c.certRequest && c.cfg.hasCert && a == Failed
    case SendClientFinished => c.neg.channelId && a == Failed
    case ReadSessionTicket => c.neg.ticket && Unless(c.io.buf, NewSessionTicket)
    case ProcessChangeCipherSpec => c.io.buf.Some?
    case ReadServerFinished => Unless(c.io.buf, Finished(true, c.io.transcript))
    case _ => false
  }

  /** And nothing else: what a server may leave out, it can leave out. */
  lemma ClientRefusesExactly(c: C.Client, a: Answer)
    ensures C.Do(c, a).0 == Error <==> ClientRefuses(c, a)
  {
    hide Send, C.ClientFinal, Consume;
    if C.InHello(c.state) {
    } else if C.InServerFlight(c.state) {
    } else if C.InClientFlight(c.state) {
    } else {
    }
  }

  // -- The server --------------------------------------------------------------------------------

  function ServerNext(s: S.State, resumed: bool): S.State {
    match s
    case StartAccept => S.ReadClientHello
    case ReadClientHello => S.SelectCertificate
    case SelectCertificate => S.SelectParameters
    case SelectParameters => S.SendServerHello
    case SendServerHello => if resumed then S.SendServerFinished else S.SendServerCertificate
    case SendServerCertificate => S.SendServerKeyExchange
    case SendServerKeyExchange => S.SendServerHelloDone
    case SendServerHelloDone => S.ReadClientCertificate
    case ReadClientCertificate => S.VerifyClientCertificate
    case VerifyClientCertificate => S.ReadClientKeyExchange
    case ReadClientKeyExchange => S.ReadClientCertificateVerify
    case ReadClientCertificateVerify => S.ReadChangeCipherSpec
    case ReadChangeCipherSpec => S.ProcessChangeCipherSpec
    case ProcessChangeCipherSpec => S.ReadNextProto
    case ReadNextProto => S.ReadChannelId
    case ReadChannelId => S.ReadClientFinished
    case ReadClientFinished => if resumed then S.FinishServerHandshake else S.SendServerFinished
    case SendServerFinished => if resumed then S.ReadChangeCipherSpec else S.FinishServerHandshake
    case FinishServerHandshake => S.Done
    case Done => S.Done
  }

  function ServerWait(s: S.State): Wait {
    match s
    case SendServerHelloDone => Flush
    case SendServerFinished => Flush
    case ReadChangeCipherSpec => ReadCcs
    case _ => Ok
  }

  /** The application chooses a certificate, looks up the session, signs with its key,
      verifies a certificate that came, or decrypts. */
  predicate ServerAsks(s: S.State, cfg: S.Config, peerCert: bool) {
    match s
    case ReadClientHello => true
    case SelectCertificate => true
    case SelectParameters => true
    case SendServerKeyExchange => S.SendsSkx(cfg) && CertAuth(cfg.neg.kex)
    case VerifyClientCertificate => peerCert
    case ReadClientKeyExchange => true
    case _ => false
  }

  /** The message the answer is about has come. */
  predicate ServerHasIt(s: S.Server) {
    match s.state
    case ReadClientHello => s.io.buf == Some(ClientHello)
    case SelectCertificate => s.io.buf.Some?
    case SelectParameters => s.io.buf.Some?
    case ReadClientKeyExchange => s.io.buf == Some(ClientKeyExchange)
    case _ => true
  }

  lemma ServerAnswers(s: S.Server, a: Answer)
    requires ServerAsks(s.state, s.cfg, s.peerCert) && ServerHasIt(s)
    ensures a == Failed ==> S.Do(s, a).0 == Error
    ensures a == Retry ==> S.Do(s, a) == (Callback, s)
    ensures a == Ready ==> S.Do(s, a).0 != Error && S.Do(s, a).1.state == ServerNext(s.state, s.cfg.neg.resumed)
  {
    hide Send, Consume;
  }

  /** Elsewhere, and before the message has come, the answer does not matter. */
  lemma ServerIgnores(s: S.Server, a: Answer)
    requires !ServerAsks(s.state, s.cfg, s.peerCert) || !ServerHasIt(s)
    ensures S.Do(s, a) == S.Do(s, Ready)
  {
    hide Send, Consume, S.ServerFinal, S.ServerCertificates;
  }

  predicate ServerGoes(s: S.Server, a: Answer, wait: Wait, s': S.Server) {
    && s'.cfg == s.cfg && s'.state == ServerNext(s.state, s.cfg.neg.resumed) && wait == ServerWait(s.state)
    && (ServerAsks(s.state, s.cfg, s.peerCert) ==> a == Ready)
    && (s.state != S.ReadClientCertificate ==> s'.peerCert == s.peerCert)
    && (s.state == S.ProcessChangeCipherSpec ==> s.io.buf == None)
  }

  lemma ServerHelloGoes(s: S.Server, a: Answer)
    requires S.InHello(s.state) && S.DoHello(s, a).0 != Error && S.DoHello(s, a).1.state != s.state
    ensures ServerGoes(s, a, S.DoHello(s, a).0, S.DoHello(s, a).1)
  {
    hide Consume;
  }

  lemma OwnFlightGoes(s: S.Server, a: Answer)
    requires S.InServerFlight(s.state) && S.DoServerFlight(s, a).0 != Error && S.DoServerFlight(s, a).1.state != s.state
    ensures ServerGoes(s, a, S.DoServerFlight(s, a).0, S.DoServerFlight(s, a).1)
  {
    hide Send, S.ServerCertificates, S.SendsSkx, CertAuth;
  }

  lemma PeerFlightGoes(s: S.Server, a: Answer)
    requires S.InClientFlight(s.state) && S.DoClientFlight(s, a).0 != Error && S.DoClientFlight(s, a).1.state != s.state
    ensures ServerGoes(s, a, S.DoClientFlight(s, a).0, S.DoClientFlight(s, a).1)
  {
    hide Consume;
  }

  lemma ServerEndGoes(s: S.Server, a: Answer)
    requires !S.InHello(s.state) && !S.InServerFlight(s.state) && !S.InClientFlight(s.state)
    requires S.DoEnd(s).0 != Error && S.DoEnd(s).1.state != s.state
    ensures ServerGoes(s, a, S.DoEnd(s).0, S.DoEnd(s).1)
  {
    hide Consume, S.ServerFinal;
  }

  lemma ServerGoesOn(s: S.Server, a: Answer)
    requires S.Do(s, a).0 != Error && S.Do(s, a).1.state != s.state
    ensures ServerGoes(s, a, S.Do(s, a).0, S.Do(s, a).1)
  {
    hide ServerGoes, S.DoHello, S.DoServerFlight, S.DoClientFlight, S.DoEnd;
    if S.InHello(s.state) {
      ServerHelloGoes(s, a);
    } else if S.InServerFlight(s.state) {
      OwnFlightGoes(s, a);
    } else if S.InClientFlight(s.state) {
      PeerFlightGoes(s, a);
    } else {
      ServerEndGoes(s, a);
    }
  }

  predicate ServerVisits(s: S.State, resumed: bool) {
    ServerFullOnly(s) ==> !resumed
  }

  lemma ServerSkipsNone(s: S.State, x: S.State, resumed: bool)
    requires ServerVisits(s, resumed) && ServerVisits(x, resumed)
    ensures S.Rank(s, resumed) < S.Rank(x, resumed) ==> S.Rank(ServerNext(s, resumed), resumed) <= S.Rank(x, resumed)
    ensures S.Rank(s, resumed) == S.Rank(x, resumed) ==> s == x
    ensures ServerVisits(ServerNext(s, resumed), resumed)
    ensures S.Rank(x, resumed) >= S.Rank(S.StartAccept, resumed)
  {
  }

  predicate ServerLeaves(cfg: S.Config, events: seq<Event>, k: nat, x: S.State, asks: bool) {
    && k < |events| && events[k].Turn? && (asks ==> events[k].a == Ready)
    && ServerAfter(cfg, events[..k]).Some? && ServerAfter(cfg, events[..k]).value.state == x
  }

  lemma ServerLeavesLater(cfg: S.Config, events: seq<Event>, k: nat, x: S.State, asks: bool)
    requires events != [] && ServerLeaves(cfg, events[..|events| - 1], k, x, asks)
    ensures ServerLeaves(cfg, events, k, x, asks)
  {
    assert events[..|events| - 1][..k] == events[..k];
  }

  /** The same for the server: one that is past VerifyClientCertificate with a client
      certificate has had it accepted. */
  lemma {:induction false} ServerVisitsAll(cfg: S.Config, events: seq<Event>, x: S.State) returns (k: nat)
    requires ServerAfter(cfg, events).Some? && ServerVisits(x, cfg.neg.resumed)
    requires S.Rank(x, cfg.neg.resumed) < S.Rank(ServerAfter(cfg, events).value.state, cfg.neg.resumed)
    ensures ServerLeaves(cfg, events, k, x, ServerAsks(x, cfg, ServerAfter(cfg, events).value.peerCert))
  {
    hide S.Do, S.Rank, ServerNext, ServerFullOnly, Take, ServerLeaves;
    ServerSkipsNone(x, x, cfg.neg.resumed);
    var n := |events| - 1;
    var s, s' := ServerAfter(cfg, events[..n]).value, ServerAfter(cfg, events).value;
    ServerOnPath(cfg, events[..n]);
    if events[n].Turn? && s'.state != s.state {
      ServerGoesOn(s, events[n].a);
      ServerSkipsNone(s.state, x, cfg.neg.resumed);
      SameCertificate(s, s', x);
      if x == s.state {
        k := n;
        assert ServerLeaves(cfg, events, k, x, ServerAsks(x, cfg, s'.peerCert)) by {
          LeavesNow(cfg, events, ServerAsks(x, cfg, s'.peerCert));
        }
        return;
      }
    } else {
      ServerStays(s, events[n]);
    }
    k := ServerVisitsAll(cfg, events[..n], x);
    ServerLeavesLater(cfg, events, k, x, ServerAsks(x, cfg, s'.peerCert));
  }

  lemma LeavesNow(cfg: S.Config, events: seq<Event>, asks: bool)
    requires events != [] && ServerAfter(cfg, events[..|events| - 1]).Some?
    requires events[|events| - 1].Turn? && (asks ==> events[|events| - 1].a == Ready)
    ensures ServerLeaves(cfg, events, |events| - 1, ServerAfter(cfg, events[..|events| - 1]).value.state, asks)
  {
  }

  lemma SameCertificate(s: S.Server, s': S.Server, x: S.State)
    requires s'.cfg == s.cfg && ServerVisits(x, s.cfg.neg.resumed) && ServerVisits(s.state, s.cfg.neg.resumed)
    requires s.state != S.ReadClientCertificate ==> s'.peerCert == s.peerCert
    requires S.Rank(x, s.cfg.neg.resumed) <= S.Rank(s.state, s.cfg.neg.resumed)
    ensures ServerAsks(x, s.cfg, s'.peerCert) == ServerAsks(x, s.cfg, s.peerCert)
  {
  }

  lemma ServerStays(s: S.Server, e: Event)
    requires e.Turn? ==> S.Do(s, e.a).0 != Error && S.Do(s, e.a).1.state == s.state
    ensures e.Turn? ==> S.Do(s, e.a).1 == s
  {
    if e.Turn? {
      S.SuspendedUnchanged(s, e.a);
    }
  }

  lemma {:induction false} ServerOnPath(cfg: S.Config, events: seq<Event>)
    requires ServerAfter(cfg, events).Some?
    ensures var s := ServerAfter(cfg, events).value; s.cfg == cfg && ServerVisits(s.state, cfg.neg.resumed)
  {
    if events != [] {
      hide S.Do, S.Rank, ServerNext, ServerFullOnly, Take;
      var n := |events| - 1;
      ServerOnPath(cfg, events[..n]);
      var s := ServerAfter(cfg, events[..n]).value;
      if events[n].Turn? {
        if S.Do(s, events[n].a).1.state == s.state {
          ServerStays(s, events[n]);
        } else {
          ServerGoesOn(s, events[n].a);
          ServerSkipsNone(s.state, s.state, cfg.neg.resumed);
        }
      }
    } else {
      ServerStart(cfg);
    }
  }

  lemma ServerStart(cfg: S.Config)
    ensures ServerVisits(S.StartAccept, cfg.neg.resumed)
  {
  }

  /** A server that is past the verification with a client certificate has had it accepted. */
  lemma ClientCertificateAccepted(cfg: S.Config, events: seq<Event>) returns (k: nat)
    requires ServerAfter(cfg, events).Some? && !cfg.neg.resumed && ServerAfter(cfg, events).value.peerCert
    requires S.Rank(S.VerifyClientCertificate, false) < S.Rank(ServerAfter(cfg, events).value.state, false)
    ensures k < |events| && events[k] == Turn(Ready) && ServerAfter(cfg, events[..k]).Some?
    ensures ServerAfter(cfg, events[..k]).value.state == S.VerifyClientCertificate
  {
    k := ServerVisitsAll(cfg, events, S.VerifyClientCertificate);
  }

  lemma ServerAnswered(cfg: S.Config, events: seq<Event>)
    requires ServerAfter(cfg, events).Some?
    requires var s := ServerAfter(cfg, events).value; ServerAsks(s.state, s.cfg, s.peerCert) && ServerHasIt(s)
    ensures ServerAfter(cfg, events + [Turn(Failed)]) == None
    ensures ServerAfter(cfg, events + [Turn(Retry)]) == ServerAfter(cfg, events)
  {
    hide S.Do;
    ServerAnswers(ServerAfter(cfg, events).value, Failed);
    ServerAnswers(ServerAfter(cfg, events).value, Retry);
    assert (events + [Turn(Failed)])[..|events|] == events && (events + [Turn(Retry)])[..|events|] == events;
  }

  predicate ServerRefuses(s: S.Server, a: Answer) {
    match s.state
    case ReadClientHello => s.io.buf.Some? && (s.io.buf.value != ClientHello || a == Failed)
    case SelectCertificate => s.io.buf.Some? && a == Failed
    case SelectParameters => s.io.buf.Some? && a == Failed
    case SendServerKeyExchange => s.cfg.neg.kex == Ecdhe && a == Failed
    case ReadClientCertificate =>
      s.cfg.certRequest && s.io.buf.Some? && s.io.buf.value != Certificate(true)
      && (s.io.buf.value != Certificate(false) || s.cfg.requireCert)
    case VerifyClientCertificate => s.peerCert && a == Failed
    case ReadClientKeyExchange => s.io.buf.Some? && (s.io.buf.value != ClientKeyExchange || a == Failed)
    case ReadClientCertificateVerify => s.peerCert && Unless(s.io.buf, CertificateVerify)
    case ProcessChangeCipherSpec => s.io.buf.Some?
    case ReadNextProto => s.cfg.neg.npn && Unless(s.io.buf, NextProto)
    case ReadChannelId => s.cfg.neg.channelId && Unless(s.io.buf, ChannelId)
    case ReadClientFinished => Unless(s.io.buf, Finished(false, s.io.transcript))
    case _ => false
  }

  /** What a server refuses, and nothing else. */
  lemma ServerRefusesExactly(s: S.Server, a: Answer)
    ensures S.Do(s, a).0 == Error <==> ServerRefuses(s, a)
  {
    hide Send, Consume, S.ServerFinal, S.ServerCertificates;
    if S.InHello(s.state) {
    } else if S.InServerFlight(s.state) {
    } else if S.InClientFlight(s.state) {
    } else {
    }
  }
}
