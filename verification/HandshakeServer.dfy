/** The server's handshake machine below TLS 1.3 (handshake_server.cc). */
module HandshakeServer {
  import opened Handshake
  import opened Options

  datatype State =
    | StartAccept
    | ReadClientHello
    | SelectCertificate
    | SelectParameters
    | SendServerHello
    | SendServerCertificate
    | SendServerKeyExchange
    | SendServerHelloDone
    | ReadClientCertificate
    | VerifyClientCertificate
    | ReadClientKeyExchange
    | ReadClientCertificateVerify
    | ReadChangeCipherSpec
    | ProcessChangeCipherSpec
    | ReadNextProto
    | ReadChannelId
    | ReadClientFinished
    | SendServerFinished
    | FinishServerHandshake
    | Done

  /** `neg` is what the server will negotiate; `hint`: a PSK identity hint is
      configured; `requireCert`: SSL_VERIFY_FAIL_IF_NO_PEER_CERT. */
  datatype Config = Config(neg: Neg, hint: bool, certRequest: bool, requireCert: bool)

  /** `peerCert`: the client sent a certificate. */
  datatype Server = Server(state: State, cfg: Config, peerCert: bool, io: Io)

  /** A ServerKeyExchange is sent when the cipher requires one, or a PSK cipher has
      an identity hint. */
  predicate SendsSkx(cfg: Config) {
    RequiresSkx(cfg.neg.kex) || (!CertAuth(cfg.neg.kex) && cfg.hint)
  }

  function To(s: Server, next: State): (Wait, Server) {
    (Ok, s.(state := next))
  }

  function Asks(s: Server, a: Answer, next: (Wait, Server)): (Wait, Server) {
    match a
    case Ready => next
    case Retry => (Callback, s)
    case Failed => (Error, s)
  }

  function Reads(s: Server, wanted: bool, m: Msg, next: State): (Wait, Server) {
    if !wanted then To(s, next)
    else if s.io.buf.None? then (ReadMessage, s)
    else if s.io.buf.value != m then (Error, s)
    else (Ok, s.(state := next, io := Consume(s.io)))
  }

  // -- States ------------------------------------------------------------------------------

  predicate InHello(s: State) {
    s == StartAccept || s == ReadClientHello || s == SelectCertificate || s == SelectParameters
  }

  predicate InServerFlight(s: State) {
    s == SendServerHello || s == SendServerCertificate || s == SendServerKeyExchange || s == SendServerHelloDone
  }

  predicate InClientFlight(s: State) {
    || s == ReadClientCertificate || s == VerifyClientCertificate || s == ReadClientKeyExchange
    || s == ReadClientCertificateVerify
  }

  /** The do_* functions on the ClientHello, which stays current until it is hashed. */
  function DoHello(s: Server, a: Answer): (Wait, Server)
    requires InHello(s.state)
  {
    if s.state == StartAccept then To(s, ReadClientHello)
    else if s.io.buf.None? then (ReadMessage, s)
    else if s.state == ReadClientHello then
      if s.io.buf.value != ClientHello then (Error, s) else Asks(s, a, To(s, SelectCertificate))
    else if s.state == SelectCertificate then Asks(s, a, To(s, SelectParameters))
    else Asks(s, a, (Ok, s.(state := SendServerHello, io := Consume(s.io))))
  }

  function ServerCertificates(s: Server): Io {
    if CertAuth(s.cfg.neg.kex) then SendIf(Send(s.io, Certificate(true)), s.cfg.neg.ocsp, CertificateStatus) else s.io
  }

  /** Those that send the server's first flight. */
  function DoServerFlight(s: Server, a: Answer): (Wait, Server)
    requires InServerFlight(s.state)
  {
    if s.state == SendServerHello then
      (Ok, s.(state := if s.cfg.neg.resumed then SendServerFinished else SendServerCertificate,
              io := Send(s.io, ServerHello(s.cfg.neg))))
    else if s.state == SendServerCertificate then (Ok, s.(state := SendServerKeyExchange, io := ServerCertificates(s)))
    else if s.state == SendServerKeyExchange then
      if !SendsSkx(s.cfg) then To(s, SendServerHelloDone)
      else Asks(s, if CertAuth(s.cfg.neg.kex) then a else Ready,
                (Ok, s.(state := SendServerHelloDone, io := Send(s.io, ServerKeyExchange))))
    else (Flush, s.(state := ReadClientCertificate,
                    io := Send(SendIf(s.io, s.cfg.certRequest, CertificateRequest), ServerHelloDone)))
  }

  /** Those that read the client's second flight. */
  function DoClientFlight(s: Server, a: Answer): (Wait, Server)
    requires InClientFlight(s.state)
  {
    if s.state == ReadClientCertificate then
      if !s.cfg.certRequest then To(s, VerifyClientCertificate)
      else if s.io.buf.None? then (ReadMessage, s)
      else if !s.io.buf.value.Certificate? then (Error, s)
      else if !s.io.buf.value.present && s.cfg.requireCert then (Error, s)
      else (Ok, Server(VerifyClientCertificate, s.cfg, s.io.buf.value.present, Consume(s.io)))
    else if s.state == VerifyClientCertificate then
      if s.peerCert then Asks(s, a, To(s, ReadClientKeyExchange)) else To(s, ReadClientKeyExchange)
    else if s.state == ReadClientKeyExchange then
      if s.io.buf.None? then (ReadMessage, s)
      else if s.io.buf.value != ClientKeyExchange then (Error, s)
      else Asks(s, a, (Ok, s.(state := ReadClientCertificateVerify, io := Consume(s.io))))
    else Reads(s, s.peerCert, CertificateVerify, ReadChangeCipherSpec)
  }

  /** The sends of do_send_server_finished. */
  function ServerFinal(s: Server): Io {
    var io := SendCcs(SendIf(s.io, s.cfg.neg.ticket, NewSessionTicket));
    Send(io, Finished(true, io.transcript))
  }

  /** Those from the client's ChangeCipherSpec on. */
  function DoEnd(s: Server): (Wait, Server) {
    match s.state
    case ReadChangeCipherSpec => (ReadCcs, s.(state := ProcessChangeCipherSpec))
    case ProcessChangeCipherSpec =>
      // A cipher change is refused while a message is left over.
      if s.io.buf.Some? then (Error, s) else To(s, ReadNextProto)
    case ReadNextProto => Reads(s, s.cfg.neg.npn, NextProto, ReadChannelId)
    case ReadChannelId => Reads(s, s.cfg.neg.channelId, ChannelId, ReadClientFinished)
    case ReadClientFinished =>
      Reads(s, true, Finished(false, s.io.transcript),
            if s.cfg.neg.resumed then FinishServerHandshake else SendServerFinished)
    case SendServerFinished =>
      (Flush, s.(state := if s.cfg.neg.resumed then ReadChangeCipherSpec else FinishServerHandshake,
                 io := ServerFinal(s)))
    case FinishServerHandshake => To(s, Done)
    case _ => (Ok, s)
  }

  /** One turn of the loop of ssl_server_handshake. */
  function Do(s: Server, a: Answer): (Wait, Server) {
    if InHello(s.state) then DoHello(s, a)
    else if InServerFlight(s.state) then DoServerFlight(s, a)
    else if InClientFlight(s.state) then DoClientFlight(s, a)
    else DoEnd(s)
  }

  // -- What every step keeps -----------------------------------------------------------------

  /** Where a state stands in the order it is reached. */
  function Rank(s: State, resumed: bool): nat {
    match s
    case StartAccept => 0
    case ReadClientHello => 1
    case SelectCertificate => 2
    case SelectParameters => 3
    case SendServerHello => 4
    case SendServerCertificate => 6
    case SendServerKeyExchange => 7
    case SendServerHelloDone => 8
    case ReadClientCertificate => 9
    case VerifyClientCertificate => 10
    case ReadClientKeyExchange => 11
    case ReadClientCertificateVerify => 12
    case ReadChangeCipherSpec => 13
    case ProcessChangeCipherSpec => 14
    case ReadNextProto => 15
    case ReadChannelId => 16
    case ReadClientFinished => 17
    case SendServerFinished => if resumed then 5 else 18
    case FinishServerHandshake => 19
    case Done => 20
  }

  const LAST := 20

  ghost predicate Rises(s: Server, wait: Wait, s': Server) {
    && s'.cfg == s.cfg
    && (wait == Ok || s'.state != s.state ==>
        Rank(s.state, s.cfg.neg.resumed) < Rank(s'.state, s.cfg.neg.resumed) <= LAST)
  }

  lemma HelloRises(s: Server, a: Answer)
    requires InHello(s.state)
    ensures Rises(s, DoHello(s, a).0, DoHello(s, a).1)
  {
    hide Consume;
  }

  lemma ServerFlightRises(s: Server, a: Answer)
    requires InServerFlight(s.state)
    ensures Rises(s, DoServerFlight(s, a).0, DoServerFlight(s, a).1)
  {
    hide Send, SendsSkx, ServerCertificates, CertAuth;
  }

  lemma ClientFlightRises(s: Server, a: Answer)
    requires InClientFlight(s.state)
    ensures Rises(s, DoClientFlight(s, a).0, DoClientFlight(s, a).1)
  {
    hide Consume;
  }

  /** Every step that changes the state raises the rank, and so does every ssl_hs_ok
      step: the loop terminates, whatever the peer sends. */
  lemma RankRises(s: Server, a: Answer)
    requires s.state != Done
    ensures Rises(s, Do(s, a).0, Do(s, a).1)
  {
    if InHello(s.state) {
      HelloRises(s, a);
    } else if InServerFlight(s.state) {
      ServerFlightRises(s, a);
    } else if InClientFlight(s.state) {
      ClientFlightRises(s, a);
    } else {
      hide DoHello, DoServerFlight, DoClientFlight, Consume, ServerFinal;
    }
  }

  /** A step that suspends in its state has had no effect: when it is entered again,
      nothing is sent, consumed or hashed twice. */
  lemma SuspendedUnchanged(s: Server, a: Answer)
    ensures Do(s, a).0 != Error && Do(s, a).1.state == s.state ==> Do(s, a).1 == s
  {
    hide Send, ServerFinal, ServerCertificates, Consume, SendsSkx;
    if InHello(s.state) {
    } else if InServerFlight(s.state) {
    } else if InClientFlight(s.state) {
    } else {
    }
  }

  /** Such a step waits for a message, or for an application that answers `Retry`. */
  lemma SuspendsToWait(s: Server, a: Answer)
    requires s.state != Done && Do(s, a).1.state == s.state && Do(s, a).0 != Error
    ensures (Do(s, a).0 == ReadMessage && s.io.buf.None?) || (Do(s, a).0 == Callback && a == Retry)
  {
    hide Send, ServerFinal, ServerCertificates;
    if InHello(s.state) {
    } else if InServerFlight(s.state) {
    } else if InClientFlight(s.state) {
    } else {
    }
  }

  lemma FlightExact(s: Server)
    ensures Exact(s.io, ServerCertificates(s)) && Exact(s.io, ServerFinal(s))
    ensures Exact(s.io, Send(SendIf(s.io, s.cfg.certRequest, CertificateRequest), ServerHelloDone))
  {
    NothingExact(s.io);
    SendExact(s.io, Certificate(true));
    SendExact(s.io, CertificateRequest);
    SendExact(s.io, NewSessionTicket);
    ExactSend(s.io, Send(s.io, Certificate(true)), CertificateStatus);
    ExactSend(s.io, SendIf(s.io, s.cfg.certRequest, CertificateRequest), ServerHelloDone);
    var io := SendIf(s.io, s.cfg.neg.ticket, NewSessionTicket);
    ExactSendCcs(s.io, io);
    ExactSend(s.io, SendCcs(io), Finished(true, SendCcs(io).transcript));
  }

  lemma ServerFlightExact(s: Server, a: Answer)
    requires InServerFlight(s.state)
    ensures Exact(s.io, DoServerFlight(s, a).1.io)
  {
    hide Exact, Send, SendIf, ServerCertificates, SendsSkx, CertAuth;
    Untouched(s.io);
    FlightExact(s);
    SendExact(s.io, ServerHello(s.cfg.neg));
    SendExact(s.io, ServerKeyExchange);
  }

  lemma HelloExact(s: Server, a: Answer)
    requires InHello(s.state)
    ensures Exact(s.io, DoHello(s, a).1.io)
  {
    hide Exact, Consume;
    Untouched(s.io);
  }

  lemma ClientFlightExact(s: Server, a: Answer)
    requires InClientFlight(s.state)
    ensures Exact(s.io, DoClientFlight(s, a).1.io)
  {
    hide Exact, Consume;
    Untouched(s.io);
  }

  /** Each message sent or consumed enters the transcript exactly once and in order. */
  lemma TranscriptExact(s: Server, a: Answer)
    requires Do(s, a).0 != Error
    ensures Exact(s.io, Do(s, a).1.io)
  {
    hide Exact, Consume, ServerFinal, DoHello, DoServerFlight, DoClientFlight;
    if InHello(s.state) {
      HelloExact(s, a);
    } else if InServerFlight(s.state) {
      ServerFlightExact(s, a);
    } else if InClientFlight(s.state) {
      ClientFlightExact(s, a);
    } else {
      Untouched(s.io);
      FlightExact(s);
    }
  }

  /** The three together. */
  lemma StepKeeps(s: Server, a: Answer)
    requires s.state != Done
    ensures var (wait, s') := Do(s, a);
            wait != Error ==>
              && Rises(s, wait, s') && (s'.state == s.state ==> s' == s)
              && (Exact(s.io, s'.io))
  {
    hide Do, Rises, Exact;
    RankRises(s, a);
    SuspendedUnchanged(s, a);
    if Do(s, a).0 != Error {
      TranscriptExact(s, a);
    }
  }

  // -- The machine in place ---------------------------------------------------------------------

  /** The SSL_HANDSHAKE of a server.  Each do_* function changes it, and the
      connection, step by step, as the functions above say. */
  class Machine {
    const cfg: Config
    const ssl: Connection
    var state: State
    var peerCert: bool

    function Now(): Server
      reads this, ssl
    {
      Server(state, cfg, peerCert, ssl.Now())
    }

    /** A step has come out as `r`; after an error the machine is not used again, and may
        have hashed the message it refused. */
    ghost predicate Did(ret: Wait, r: (Wait, Server))
      reads this, ssl
    {
      ret == r.0 && (ret != Error ==> Now() == r.1)
    }

    constructor (cfg: Config)
      ensures Now() == Server(StartAccept, cfg, false, Io([], [], None)) && fresh(ssl)
    {
      this.cfg, state, peerCert := cfg, StartAccept, false;
      ssl := new Connection();
    }

    method DoStartAccept() returns (ret: Wait)
      requires state == StartAccept
      modifies this, ssl
      ensures forall a :: Did(ret, DoHello(old(Now()), a))
    {
      state := ReadClientHello;
      return Ok;
    }

    method DoReadClientHello(a: Answer) returns (ret: Wait)
      requires state == ReadClientHello
      modifies this, ssl
      ensures Did(ret, DoHello(old(Now()), a))
    {
      if ssl.buf.None? {
        return ReadMessage;
      }
      if ssl.buf.value != ClientHello {
        return Error;
      }
      match a {
        case Failed => return Error;
        case Retry => return Callback;
        case Ready =>
      }
      state := SelectCertificate;
      return Ok;
    }

    method DoSelectCertificate(a: Answer) returns (ret: Wait)
      requires state == SelectCertificate
      modifies this, ssl
      ensures Did(ret, DoHello(old(Now()), a))
    {
      if ssl.buf.None? {
        return ReadMessage;
      }
      match a {
        case Failed => return Error;
        case Retry => return Callback;
        case Ready =>
      }
      state := SelectParameters;
      return Ok;
    }

    method DoSelectParameters(a: Answer) returns (ret: Wait)
      requires state == SelectParameters
      modifies this, ssl
      ensures Did(ret, DoHello(old(Now()), a))
    {
      if ssl.buf.None? {
        return ReadMessage;
      }
      match a {
        case Failed => return Error;
        case Retry => return Callback;
        case Ready =>
      }
      ssl.HashMessage();
      ssl.NextMessage();
      state := SendServerHello;
      return Ok;
    }

    method DoSendServerHello() returns (ret: Wait)
      requires state == SendServerHello
      modifies this, ssl
      ensures forall a :: Did(ret, DoServerFlight(old(Now()), a))
    {
      ssl.AddMessage(ServerHello(cfg.neg));
      state := if cfg.neg.resumed then SendServerFinished else SendServerCertificate;
      return Ok;
    }

    method DoSendServerCertificate() returns (ret: Wait)
      requires state == SendServerCertificate
      modifies this, ssl
      ensures forall a :: Did(ret, DoServerFlight(old(Now()), a))
    {
      if CertAuth(cfg.neg.kex) {
        ssl.AddMessage(Certificate(true));
        if cfg.neg.ocsp {
          ssl.AddMessage(CertificateStatus);
        }
      }
      state := SendServerKeyExchange;
      return Ok;
    }

    method DoSendServerKeyExchange(a: Answer) returns (ret: Wait)
      requires state == SendServerKeyExchange
      modifies this, ssl
      ensures Did(ret, DoServerFlight(old(Now()), a))
    {
      if !SendsSkx(cfg) {
        state := SendServerHelloDone;
        return Ok;
      }
      // Only a certificate cipher signs, which may take several calls.
      if CertAuth(cfg.neg.kex) {
        match a {
          case Failed => return Error;
          case Retry => return Callback;
          case Ready =>
        }
      }
      ssl.AddMessage(ServerKeyExchange);
      state := SendServerHelloDone;
      return Ok;
    }

    method DoSendServerHelloDone() returns (ret: Wait)
      requires state == SendServerHelloDone
      modifies this, ssl
      ensures forall a :: Did(ret, DoServerFlight(old(Now()), a))
    {
      if cfg.certRequest {
        ssl.AddMessage(CertificateRequest);
      }
      ssl.AddMessage(ServerHelloDone);
      state := ReadClientCertificate;
      return Flush;
    }

    method DoReadClientCertificate() returns (ret: Wait)
      requires state == ReadClientCertificate
      modifies this, ssl
      ensures forall a :: Did(ret, DoClientFlight(old(Now()), a))
    {
      if !cfg.certRequest {
        state := VerifyClientCertificate;
        return Ok;
      }
      if ssl.buf.None? {
        return ReadMessage;
      }
      if !ssl.buf.value.Certificate? {
        return Error;
      }
      ssl.HashMessage();
      if !ssl.buf.value.present && cfg.requireCert {
        return Error;
      }
      peerCert := ssl.buf.value.present;
      ssl.NextMessage();
      state := VerifyClientCertificate;
      return Ok;
    }

    method DoVerifyClientCertificate(a: Answer) returns (ret: Wait)
      requires state == VerifyClientCertificate
      modifies this, ssl
      ensures Did(ret, DoClientFlight(old(Now()), a))
    {
      if peerCert {
        match a {
          case Failed => return Error;
          case Retry => return Callback;
          case Ready =>
        }
      }
      state := ReadClientKeyExchange;
      return Ok;
    }

    method DoReadClientKeyExchange(a: Answer) returns (ret: Wait)
      requires state == ReadClientKeyExchange
      modifies this, ssl
      ensures Did(ret, DoClientFlight(old(Now()), a))
    {
      if ssl.buf.None? {
        return ReadMessage;
      }
      if ssl.buf.value != ClientKeyExchange {
        return Error;
      }
      // An RSA decryption may take several calls; the message stays current.
      match a {
        case Failed => return Error;
        case Retry => return Callback;
        case Ready =>
      }
      ssl.HashMessage();
      ssl.NextMessage();
      state := ReadClientCertificateVerify;
      return Ok;
    }

    method DoReadClientCertificateVerify() returns (ret: Wait)
      requires state == ReadClientCertificateVerify
      modifies this, ssl
      ensures forall a :: Did(ret, DoClientFlight(old(Now()), a))
    {
      if !peerCert {
        state := ReadChangeCipherSpec;
        return Ok;
      }
      if ssl.buf.None? {
        return ReadMessage;
      }
      if ssl.buf.value != CertificateVerify {
        return Error;
      }
      ssl.HashMessage();
      ssl.NextMessage();
      state := ReadChangeCipherSpec;
      return Ok;
    }

    method DoReadChangeCipherSpec() returns (ret: Wait)
      requires state == ReadChangeCipherSpec
      modifies this, ssl
      ensures Did(ret, DoEnd(old(Now())))
    {
      state := ProcessChangeCipherSpec;
      return ReadCcs;
    }

    method DoProcessChangeCipherSpec() returns (ret: Wait)
      requires state == ProcessChangeCipherSpec
      modifies this, ssl
      ensures Did(ret, DoEnd(old(Now())))
    {
      // A cipher change is refused while a message is left over.
      if ssl.buf.Some? {
        return Error;
      }
      state := ReadNextProto;
      return Ok;
    }

    method DoReadNextProto() returns (ret: Wait)
      requires state == ReadNextProto
      modifies this, ssl
      ensures Did(ret, DoEnd(old(Now())))
    {
      if !cfg.neg.npn {
        state := ReadChannelId;
        return Ok;
      }
      if ssl.buf.None? {
        return ReadMessage;
      }
      if ssl.buf.value != NextProto {
        return Error;
      }
      ssl.HashMessage();
      ssl.NextMessage();
      state := ReadChannelId;
      return Ok;
    }

    method DoReadChannelId() returns (ret: Wait)
      requires state == ReadChannelId
      modifies this, ssl
      ensures Did(ret, DoEnd(old(Now())))
    {
      if !cfg.neg.channelId {
        state := ReadClientFinished;
        return Ok;
      }
      if ssl.buf.None? {
        return ReadMessage;
      }
      if ssl.buf.value != ChannelId {
        return Error;
      }
      ssl.HashMessage();
      ssl.NextMessage();
      state := ReadClientFinished;
      return Ok;
    }

    method DoReadClientFinished() returns (ret: Wait)
      requires state == ReadClientFinished
      modifies this, ssl
      ensures Did(ret, DoEnd(old(Now())))
    {
      ret := ssl.GetFinished(false);
      if ret != Ok {
        return;
      }
      state := if cfg.neg.resumed then FinishServerHandshake else SendServerFinished;
    }

    method DoSendServerFinished() returns (ret: Wait)
      requires state == SendServerFinished
      modifies this, ssl
      ensures Did(ret, DoEnd(old(Now())))
    {
      if cfg.neg.ticket {
        ssl.AddMessage(NewSessionTicket);
      }
      ssl.AddChangeCipherSpec();
      ssl.SendFinished(true);
      state := if cfg.neg.resumed then ReadChangeCipherSpec else FinishServerHandshake;
      return Flush;
    }

    method DoFinishServerHandshake() returns (ret: Wait)
      requires state == FinishServerHandshake
      modifies this, ssl
      ensures Did(ret, DoEnd(old(Now())))
    {
      state := Done;
      return Ok;
    }

    /** One turn of the loop of ssl_server_handshake. */
    method Step(a: Answer) returns (ret: Wait)
      requires state != Done
      modifies this, ssl
      ensures Did(ret, Do(old(Now()), a))
      ensures ret != Error ==> Rises(old(Now()), ret, Now()) && (state == old(state) ==> Now() == old(Now()))
      ensures ret != Error ==> Exact(old(ssl.Now()), ssl.Now())
    {
      hide DoHello, DoServerFlight, DoClientFlight, DoEnd, Rises, Exact;
      ghost var before := Now();
      StepKeeps(before, a);
      match state {
        case StartAccept => ret := DoStartAccept();
        case ReadClientHello => ret := DoReadClientHello(a);
        case SelectCertificate => ret := DoSelectCertificate(a);
        case SelectParameters => ret := DoSelectParameters(a);
        case SendServerHello => ret := DoSendServerHello();
        case SendServerCertificate => ret := DoSendServerCertificate();
        case SendServerKeyExchange => ret := DoSendServerKeyExchange(a);
        case SendServerHelloDone => ret := DoSendServerHelloDone();
        case ReadClientCertificate => ret := DoReadClientCertificate();
        case VerifyClientCertificate => ret := DoVerifyClientCertificate(a);
        case ReadClientKeyExchange => ret := DoReadClientKeyExchange(a);
        case ReadClientCertificateVerify => ret := DoReadClientCertificateVerify();
        case ReadChangeCipherSpec => ret := DoReadChangeCipherSpec();
        case ProcessChangeCipherSpec => ret := DoProcessChangeCipherSpec();
        case ReadNextProto => ret := DoReadNextProto();
        case ReadChannelId => ret := DoReadChannelId();
        case ReadClientFinished => ret := DoReadClientFinished();
        case SendServerFinished => ret := DoSendServerFinished();
        case FinishServerHandshake => ret := DoFinishServerHandshake();
      }
    }
  }
}
