/** The client's handshake machine below TLS 1.3 (handshake_client.cc). */
module HandshakeClient {
  import opened Handshake
  import opened Options

  datatype State =
    | StartConnect
    | EnterEarlyData
    | ReadHelloVerifyRequest
    | ReadServerHello
    | ReadServerCertificate
    | ReadCertificateStatus
    | VerifyServerCertificate
    | ReadServerKeyExchange
    | ReadCertificateRequest
    | ReadServerHelloDone
    | SendClientCertificate
    | SendClientKeyExchange
    | SendClientCertificateVerify
    | SendClientFinished
    | FinishFlight
    | ReadSessionTicket
    | ProcessChangeCipherSpec
    | ReadServerFinished
    | FinishClientHandshake
    | Done

  /** `offered`: a session was offered; `hasCert`: a certificate is configured. */
  datatype Config = Config(dtls: bool, offered: bool, hasCert: bool, falseStart: bool)

  datatype Client = Client(state: State, cfg: Config, neg: Neg, certRequest: bool, io: Io)

  function To(c: Client, s: State): (Wait, Client) {
    (Ok, c.(state := s))
  }

  function Asks(c: Client, a: Answer, next: (Wait, Client)): (Wait, Client) {
    match a
    case Ready => next
    case Retry => (Callback, c)
    case Failed => (Error, c)
  }

  // -- States ------------------------------------------------------------------------------

  /** do_read_server_hello, on a ServerHello. */
  function OnServerHello(c: Client, neg: Neg): (Wait, Client)
    requires c.io.buf.Some?
  {
    if neg.resumed && !c.cfg.offered then (Error, c)
    else if neg.ocsp && !CertAuth(neg.kex) then (Error, c)
    else (Ok, Client(if neg.resumed then ReadSessionTicket else ReadServerCertificate,
                     c.cfg, neg, c.certRequest, Consume(c.io)))
  }

  /** The sends of do_send_client_finished. */
  function ClientFinal(c: Client): Io {
    var io := SendIf(SendIf(SendCcs(c.io), c.neg.npn, NextProto), c.neg.channelId, ChannelId);
    Send(io, Finished(false, io.transcript))
  }

  /** Reading the message `m` and no other, if it is `wanted` at all. */
  function Reads(c: Client, wanted: bool, m: Msg, next: State): (Wait, Client) {
    if !wanted then To(c, next)
    else if c.io.buf.None? then (ReadMessage, c)
    else if c.io.buf.value != m then (Error, c)
    else (Ok, c.(state := next, io := Consume(c.io)))
  }

  /** Passing over to `next`, reading `m` on the way if it is there. */
  function ReadsIf(c: Client, m: Msg, next: State): (Wait, Client)
    requires c.io.buf.Some?
  {
    if c.io.buf.value == m then (Ok, c.(state := next, io := Consume(c.io))) else To(c, next)
  }

  function Sends(c: Client, m: Msg, next: State): (Wait, Client) {
    (Ok, c.(state := next, io := Send(c.io, m)))
  }

  predicate InHello(s: State) {
    s == StartConnect || s == EnterEarlyData || s == ReadHelloVerifyRequest || s == ReadServerHello
  }

  predicate InServerFlight(s: State) {
    || s == ReadServerCertificate || s == ReadCertificateStatus || s == VerifyServerCertificate
    || s == ReadServerKeyExchange || s == ReadCertificateRequest || s == ReadServerHelloDone
  }

  predicate InClientFlight(s: State) {
    || s == SendClientCertificate || s == SendClientKeyExchange || s == SendClientCertificateVerify
    || s == SendClientFinished || s == FinishFlight
  }

  /** The do_* functions up to the ServerHello. */
  function DoHello(c: Client): (Wait, Client)
    requires InHello(c.state)
  {
    if c.state == StartConnect then (Flush, c.(state := EnterEarlyData, io := Send(c.io, ClientHello)))
    else if c.state == EnterEarlyData then To(c, if c.cfg.dtls then ReadHelloVerifyRequest else ReadServerHello)
    else if c.io.buf.None? then (ReadMessage, c)
    else if c.state == ReadHelloVerifyRequest then
      if c.io.buf.value != HelloVerifyRequest then To(c, ReadServerHello)
      else
        // DTLS resets the handshake buffer after HelloVerifyRequest.
        (Flush, c.(state := ReadServerHello, io := Send(Io([], c.io.pending, None), ClientHello)))
    else if !c.io.buf.value.ServerHello? then (Error, c)
    else OnServerHello(c, c.io.buf.value.neg)
  }

  /** Those of the rest of the server's flight. */
  function DoServerFlight(c: Client, a: Answer): (Wait, Client)
    requires InServerFlight(c.state)
  {
    if c.state == ReadServerCertificate then Reads(c, CertAuth(c.neg.kex), Certificate(true), ReadCertificateStatus)
    else if c.state == ReadCertificateStatus then
      if !c.neg.ocsp then To(c, VerifyServerCertificate)
      else if c.io.buf.None? then (ReadMessage, c)
      else ReadsIf(c, CertificateStatus, VerifyServerCertificate)
    else if c.state == VerifyServerCertificate then
      if CertAuth(c.neg.kex) then Asks(c, a, To(c, ReadServerKeyExchange)) else To(c, ReadServerKeyExchange)
    else if c.state == ReadServerKeyExchange then
      if c.io.buf.None? then (ReadMessage, c)
      else if c.io.buf.value != ServerKeyExchange && RequiresSkx(c.neg.kex) then (Error, c)
      else if c.io.buf.value == ServerKeyExchange && c.neg.kex == Rsa then (Error, c)
      else ReadsIf(c, ServerKeyExchange, ReadCertificateRequest)
    else if c.state == ReadCertificateRequest then
      if !CertAuth(c.neg.kex) then To(c, ReadServerHelloDone)
      else if c.io.buf.None? then (ReadMessage, c)
      else if c.io.buf.value == ServerHelloDone then To(c, ReadServerHelloDone)
      else if c.io.buf.value != CertificateRequest then (Error, c)
      else (Ok, c.(state := ReadServerHelloDone, certRequest := true, io := Consume(c.io)))
    else Reads(c, true, ServerHelloDone, SendClientCertificate)
  }

  /** Those that send the client's second flight. */
  function DoClientFlight(c: Client, a: Answer): (Wait, Client)
    requires InClientFlight(c.state)
  {
    if c.state == SendClientCertificate then
      if c.certRequest then Asks(c, a, Sends(c, Certificate(c.cfg.hasCert), SendClientKeyExchange))
      else To(c, SendClientKeyExchange)
    else if c.state == SendClientKeyExchange then
      if a == Failed then (Error, c) else Sends(c, ClientKeyExchange, SendClientCertificateVerify)
    else if c.state == SendClientCertificateVerify then
      if c.certRequest && c.cfg.hasCert then Asks(c, a, Sends(c, CertificateVerify, SendClientFinished))
      else To(c, SendClientFinished)
    else if c.state == SendClientFinished then
      // Channel ID is resolved first, before any non-idempotent operation.
      if c.neg.channelId && a != Ready then (if a == Retry then Callback else Error, c)
      else (Flush, c.(state := FinishFlight, io := ClientFinal(c)))
    else if c.neg.resumed then To(c, FinishClientHandshake)
    else (if c.cfg.falseStart && !c.cfg.dtls then EarlyReturn else Ok, c.(state := ReadSessionTicket))
  }

  /** Those from the server's last flight on. */
  function DoEnd(c: Client): (Wait, Client) {
    match c.state
    case ReadSessionTicket =>
      if !c.neg.ticket then (ReadCcs, c.(state := ProcessChangeCipherSpec))
      else if c.io.buf.None? then (ReadMessage, c)
      else if c.io.buf.value != NewSessionTicket then (Error, c)
      else (ReadCcs, c.(state := ProcessChangeCipherSpec, io := Consume(c.io)))
    case ProcessChangeCipherSpec =>
      // A cipher change is refused while a message is left over.
      if c.io.buf.Some? then (Error, c) else To(c, ReadServerFinished)
    case ReadServerFinished =>
      Reads(c, true, Finished(true, c.io.transcript),
            if c.neg.resumed then SendClientFinished else FinishClientHandshake)
    case FinishClientHandshake => To(c, Done)
    case _ => (Ok, c)
  }

  /** One turn of the loop of ssl_client_handshake. */
  function Do(c: Client, a: Answer): (Wait, Client) {
    if InHello(c.state) then DoHello(c)
    else if InServerFlight(c.state) then DoServerFlight(c, a)
    else if InClientFlight(c.state) then DoClientFlight(c, a)
    else DoEnd(c)
  }

  // -- What every step keeps -----------------------------------------------------------------

  /** Where a state stands in the order it is reached. */
  function Rank(s: State, resumed: bool): nat {
    match s
    case StartConnect => 0
    case EnterEarlyData => 1
    case ReadHelloVerifyRequest => 2
    case ReadServerHello => 3
    case ReadServerCertificate => 4
    case ReadCertificateStatus => 5
    case VerifyServerCertificate => 6
    case ReadServerKeyExchange => 7
    case ReadCertificateRequest => 8
    case ReadServerHelloDone => 9
    case SendClientCertificate => 10
    case SendClientKeyExchange => 11
    case SendClientCertificateVerify => 12
    case SendClientFinished => if resumed then 18 else 13
    case FinishFlight => if resumed then 19 else 14
    case ReadSessionTicket => 15
    case ProcessChangeCipherSpec => 16
    case ReadServerFinished => 17
    case FinishClientHandshake => 20
    case Done => 21
  }

  const LAST := 21

  ghost predicate Rises(c: Client, wait: Wait, c': Client) {
    && (wait == Ok || c'.state != c.state ==> Rank(c.state, c.neg.resumed) < Rank(c'.state, c'.neg.resumed) <= LAST)
    && (c'.state == c.state ==> c'.neg == c.neg)
  }

  lemma HelloRises(c: Client)
    requires InHello(c.state)
    ensures Rises(c, DoHello(c).0, DoHello(c).1)
  {
    hide Send, Consume, CertAuth;
  }

  lemma ServerFlightRises(c: Client, a: Answer)
    requires InServerFlight(c.state)
    ensures Rises(c, DoServerFlight(c, a).0, DoServerFlight(c, a).1)
  {
    hide Send, Consume, CertAuth, RequiresSkx;
  }

  lemma ClientFlightRises(c: Client, a: Answer)
    requires InClientFlight(c.state)
    ensures Rises(c, DoClientFlight(c, a).0, DoClientFlight(c, a).1)
  {
    hide Send, ClientFinal;
  }

  /** Every step that changes the state raises the rank, and so does every ssl_hs_ok
      step: the loop terminates, whatever the peer sends. */
  lemma RankRises(c: Client, a: Answer)
    requires c.state != Done
    ensures Rises(c, Do(c, a).0, Do(c, a).1)
  {
    if InHello(c.state) {
      HelloRises(c);
    } else if InServerFlight(c.state) {
      ServerFlightRises(c, a);
    } else if InClientFlight(c.state) {
      ClientFlightRises(c, a);
    } else {
      hide DoHello, DoServerFlight, DoClientFlight, Consume;
    }
  }

  /** A step that suspends in its state has had no effect: when it is entered again,
      nothing is sent, consumed or hashed twice. */
  lemma SuspendedUnchanged(c: Client, a: Answer)
    ensures Do(c, a).0 != Error && Do(c, a).1.state == c.state ==> Do(c, a).1 == c
  {
    hide Send, ClientFinal, Consume;
    if InHello(c.state) {
    } else if InServerFlight(c.state) {
    } else if InClientFlight(c.state) {
    } else {
    }
  }

  /** Such a step waits for a message, or for an application that answers `Retry`. */
  lemma SuspendsToWait(c: Client, a: Answer)
    requires c.state != Done && Do(c, a).1.state == c.state && Do(c, a).0 != Error
    ensures (Do(c, a).0 == ReadMessage && c.io.buf.None?) || (Do(c, a).0 == Callback && a == Retry)
  {
    hide Send, ClientFinal;
    if InHello(c.state) {
    } else if InServerFlight(c.state) {
    } else if InClientFlight(c.state) {
    } else {
    }
  }

  lemma FinalExact(c: Client)
    ensures Exact(c.io, ClientFinal(c)) && ClientFinal(c).buf == c.io.buf
  {
    var io := SendIf(SendCcs(c.io), c.neg.npn, NextProto);
    NothingExact(c.io);
    ExactSendCcs(c.io, c.io);
    if c.neg.npn {
      ExactSend(c.io, SendCcs(c.io), NextProto);
    }
    if c.neg.channelId {
      ExactSend(c.io, io, ChannelId);
    }
    var io' := SendIf(io, c.neg.channelId, ChannelId);
    ExactSend(c.io, io', Finished(false, io'.transcript));
  }

  lemma HelloExact(c: Client)
    requires InHello(c.state) && !(c.state == ReadHelloVerifyRequest && c.io.buf == Some(HelloVerifyRequest))
    ensures DoHello(c).0 != Error ==> Exact(c.io, DoHello(c).1.io)
  {
    hide Exact, Consume, Send;
    Untouched(c.io);
    SendExact(c.io, ClientHello);
  }

  lemma ServerFlightExact(c: Client, a: Answer)
    requires InServerFlight(c.state)
    ensures DoServerFlight(c, a).0 != Error ==> Exact(c.io, DoServerFlight(c, a).1.io)
  {
    hide Exact, Consume, CertAuth, RequiresSkx;
    Untouched(c.io);
  }

  lemma ClientFlightExact(c: Client, a: Answer)
    requires InClientFlight(c.state)
    ensures DoClientFlight(c, a).0 != Error ==> Exact(c.io, DoClientFlight(c, a).1.io)
  {
    hide Exact, Send, ClientFinal;
    Untouched(c.io);
    SendExact(c.io, Certificate(c.cfg.hasCert));
    SendExact(c.io, ClientKeyExchange);
    SendExact(c.io, CertificateVerify);
    FinalExact(c);
  }

  /** Each message sent or consumed enters the transcript exactly once and in order ... */
  lemma TranscriptExact(c: Client, a: Answer)
    requires Do(c, a).0 != Error
    requires !(c.state == ReadHelloVerifyRequest && c.io.buf == Some(HelloVerifyRequest))
    ensures Exact(c.io, Do(c, a).1.io)
  {
    hide Exact, Consume, DoHello, DoServerFlight, DoClientFlight;
    if InHello(c.state) {
      HelloExact(c);
    } else if InServerFlight(c.state) {
      ServerFlightExact(c, a);
    } else if InClientFlight(c.state) {
      ClientFlightExact(c, a);
    } else {
      Untouched(c.io);
    }
  }

  /** ... except that a HelloVerifyRequest, and all before it, are left out (section
      4.2.6 of RFC 6347). */
  lemma HelloVerifyRequestResets(c: Client, a: Answer)
    requires c.state == ReadHelloVerifyRequest && c.io.buf == Some(HelloVerifyRequest)
    ensures var (wait, c') := Do(c, a);
            wait == Flush && c'.state == ReadServerHello
                && c'.io == Io([ClientHello], c.io.pending + [Hs(ClientHello)], None)
  {
  }

  /** The three together. */
  lemma StepKeeps(c: Client, a: Answer)
    requires c.state != Done
    ensures var (wait, c') := Do(c, a);
            wait != Error ==>
              && Rises(c, wait, c') && (c'.state == c.state ==> c' == c)
              && (!(c.state == ReadHelloVerifyRequest && c.io.buf == Some(HelloVerifyRequest)) ==> Exact(c.io, c'.io))
  {
    hide Do, Rises, Exact;
    RankRises(c, a);
    SuspendedUnchanged(c, a);
    if Do(c, a).0 != Error && !(c.state == ReadHelloVerifyRequest && c.io.buf == Some(HelloVerifyRequest)) {
      TranscriptExact(c, a);
    }
  }

  // -- The machine in place ---------------------------------------------------------------------

  /** The SSL_HANDSHAKE of a client.  Each do_* function changes it, and the
      connection, step by step, as the functions above say. */
  class Machine {
    const cfg: Config
    const ssl: Connection
    var state: State
    var neg: Neg
    var certRequest: bool

    function Now(): Client
      reads this, ssl
    {
      Client(state, cfg, neg, certRequest, ssl.Now())
    }

    /** A step has come out as `r`; after an error the machine is not used again, and may
        have hashed the message it refused. */
    ghost predicate Did(ret: Wait, r: (Wait, Client))
      reads this, ssl
    {
      ret == r.0 && (ret != Error ==> Now() == r.1)
    }

    constructor (cfg: Config, neg: Neg)
      ensures Now() == Client(StartConnect, cfg, neg, false, Io([], [], None)) && fresh(ssl)
    {
      this.cfg, this.neg, state, certRequest := cfg, neg, StartConnect, false;
      ssl := new Connection();
    }

    method DoStartConnect() returns (ret: Wait)
      requires state == StartConnect
      modifies this, ssl
      ensures Did(ret, DoHello(old(Now())))
    {
      ssl.AddMessage(ClientHello);
      state := EnterEarlyData;
      return Flush;
    }

    method DoEnterEarlyData() returns (ret: Wait)
      requires state == EnterEarlyData
      modifies this, ssl
      ensures Did(ret, DoHello(old(Now())))
    {
      state := if cfg.dtls then ReadHelloVerifyRequest else ReadServerHello;
      return Ok;
    }

    method DoReadHelloVerifyRequest() returns (ret: Wait)
      requires state == ReadHelloVerifyRequest
      modifies this, ssl
      ensures Did(ret, DoHello(old(Now())))
    {
      if ssl.buf.None? {
        return ReadMessage;
      }
      if ssl.buf.value != HelloVerifyRequest {
        state := ReadServerHello;
        return Ok;
      }
      ssl.NextMessage();
      ssl.transcript := [];
      ssl.AddMessage(ClientHello);
      state := ReadServerHello;
      return Flush;
    }

    method DoReadServerHello() returns (ret: Wait)
      requires state == ReadServerHello
      modifies this, ssl
      ensures Did(ret, DoHello(old(Now())))
    {
      if ssl.buf.None? {
        return ReadMessage;
      }
      if !ssl.buf.value.ServerHello? {
        return Error;
      }
      var hello := ssl.buf.value.neg;
      if (hello.resumed && !cfg.offered) || (hello.ocsp && !CertAuth(hello.kex)) {
        return Error;
      }
      neg := hello;
      ssl.HashMessage();
      ssl.NextMessage();
      state := if neg.resumed then ReadSessionTicket else ReadServerCertificate;
      return Ok;
    }

    method DoReadServerCertificate() returns (ret: Wait)
      requires state == ReadServerCertificate
      modifies this, ssl
      ensures forall a :: Did(ret, DoServerFlight(old(Now()), a))
    {
      if !CertAuth(neg.kex) {
        state := ReadCertificateStatus;
        return Ok;
      }
      if ssl.buf.None? {
        return ReadMessage;
      }
      if !ssl.buf.value.Certificate? {
        return Error;
      }
      ssl.HashMessage();
      if !ssl.buf.value.present {
        return Error;
      }
      ssl.NextMessage();
      state := ReadCertificateStatus;
      return Ok;
    }

    method DoReadCertificateStatus() returns (ret: Wait)
      requires state == ReadCertificateStatus
      modifies this, ssl
      ensures forall a :: Did(ret, DoServerFlight(old(Now()), a))
    {
      if neg.ocsp {
        if ssl.buf.None? {
          return ReadMessage;
        }
        // A server may omit a CertificateStatus that it announced.
        if ssl.buf.value == CertificateStatus {
          ssl.HashMessage();
          ssl.NextMessage();
        }
      }
      state := VerifyServerCertificate;
      return Ok;
    }

    method DoVerifyServerCertificate(a: Answer) returns (ret: Wait)
      requires state == VerifyServerCertificate
      modifies this, ssl
      ensures Did(ret, DoServerFlight(old(Now()), a))
    {
      if CertAuth(neg.kex) {
        match a {
          case Failed => return Error;
          case Retry => return Callback;
          case Ready =>
        }
      }
      state := ReadServerKeyExchange;
      return Ok;
    }

    method DoReadServerKeyExchange() returns (ret: Wait)
      requires state == ReadServerKeyExchange
      modifies this, ssl
      ensures forall a :: Did(ret, DoServerFlight(old(Now()), a))
    {
      if ssl.buf.None? {
        return ReadMessage;
      }
      if ssl.buf.value != ServerKeyExchange {
        // Pure PSK ciphers have an optional ServerKeyExchange.
        if RequiresSkx(neg.kex) {
          return Error;
        }
        state := ReadCertificateRequest;
        return Ok;
      }
      ssl.HashMessage();
      if neg.kex == Rsa {
        return Error;
      }
      ssl.NextMessage();
      state := ReadCertificateRequest;
      return Ok;
    }

    method DoReadCertificateRequest() returns (ret: Wait)
      requires state == ReadCertificateRequest
      modifies this, ssl
      ensures forall a :: Did(ret, DoServerFlight(old(Now()), a))
    {
      if !CertAuth(neg.kex) {
        state := ReadServerHelloDone;
        return Ok;
      }
      if ssl.buf.None? {
        return ReadMessage;
      }
      if ssl.buf.value == ServerHelloDone {
        state := ReadServerHelloDone;
        return Ok;
      }
      if ssl.buf.value != CertificateRequest {
        return Error;
      }
      ssl.HashMessage();
      certRequest := true;
      ssl.NextMessage();
      state := ReadServerHelloDone;
      return Ok;
    }

    method DoReadServerHelloDone() returns (ret: Wait)
      requires state == ReadServerHelloDone
      modifies this, ssl
      ensures forall a :: Did(ret, DoServerFlight(old(Now()), a))
    {
      if ssl.buf.None? {
        return ReadMessage;
      }
      if ssl.buf.value != ServerHelloDone {
        return Error;
      }
      ssl.HashMessage();
      ssl.NextMessage();
      state := SendClientCertificate;
      return Ok;
    }

    method DoSendClientCertificate(a: Answer) returns (ret: Wait)
      requires state == SendClientCertificate
      modifies this, ssl
      ensures Did(ret, DoClientFlight(old(Now()), a))
    {
      if certRequest {
        match a {
          case Failed => return Error;
          case Retry => return Callback;
          case Ready => ssl.AddMessage(Certificate(cfg.hasCert));
        }
      }
      state := SendClientKeyExchange;
      return Ok;
    }

    method DoSendClientKeyExchange(a: Answer) returns (ret: Wait)
      requires state == SendClientKeyExchange
      modifies this, ssl
      ensures Did(ret, DoClientFlight(old(Now()), a))
    {
      if a == Failed {
        return Error;
      }
      ssl.AddMessage(ClientKeyExchange);
      state := SendClientCertificateVerify;
      return Ok;
    }

    method DoSendClientCertificateVerify(a: Answer) returns (ret: Wait)
      requires state == SendClientCertificateVerify
      modifies this, ssl
      ensures Did(ret, DoClientFlight(old(Now()), a))
    {
      if certRequest && cfg.hasCert {
        match a {
          case Failed => return Error;
          case Retry => return Callback;
          case Ready => ssl.AddMessage(CertificateVerify);
        }
      }
      state := SendClientFinished;
      return Ok;
    }

    method DoSendClientFinished(a: Answer) returns (ret: Wait)
      requires state == SendClientFinished
      modifies this, ssl
      ensures Did(ret, DoClientFlight(old(Now()), a))
    {
      // Channel ID is resolved first, before any non-idempotent operation.
      if neg.channelId && a != Ready {
        return if a == Retry then Callback else Error;
      }
      ssl.AddChangeCipherSpec();
      if neg.npn {
        ssl.AddMessage(NextProto);
      }
      if neg.channelId {
        ssl.AddMessage(ChannelId);
      }
      ssl.SendFinished(false);
      state := FinishFlight;
      return Flush;
    }

    method DoFinishFlight() returns (ret: Wait)
      requires state == FinishFlight
      modifies this, ssl
      ensures forall a :: Did(ret, DoClientFlight(old(Now()), a))
    {
      if neg.resumed {
        state := FinishClientHandshake;
        return Ok;
      }
      state := ReadSessionTicket;
      return if cfg.falseStart && !cfg.dtls then EarlyReturn else Ok;
    }

    method DoReadSessionTicket() returns (ret: Wait)
      requires state == ReadSessionTicket
      modifies this, ssl
      ensures Did(ret, DoEnd(old(Now())))
    {
      if neg.ticket {
        if ssl.buf.None? {
          return ReadMessage;
        }
        if ssl.buf.value != NewSessionTicket {
          return Error;
        }
        ssl.HashMessage();
        ssl.NextMessage();
      }
      state := ProcessChangeCipherSpec;
      return ReadCcs;
    }

    method DoProcessChangeCipherSpec() returns (ret: Wait)
      requires state == ProcessChangeCipherSpec
      modifies this, ssl
      ensures Did(ret, DoEnd(old(Now())))
    {
      // A cipher change is refused while a message is left over.
      if ssl.buf.Some? {
        return Error;
      }
      state := ReadServerFinished;
      return Ok;
    }

    method DoReadServerFinished() returns (ret: Wait)
      requires state == ReadServerFinished
      modifies this, ssl
      ensures Did(ret, DoEnd(old(Now())))
    {
      ret := ssl.GetFinished(true);
      if ret != Ok {
        return;
      }
      state := if neg.resumed then SendClientFinished else FinishClientHandshake;
    }

    method DoFinishClientHandshake() returns (ret: Wait)
      requires state == FinishClientHandshake
      modifies this, ssl
      ensures Did(ret, DoEnd(old(Now())))
    {
      state := Done;
      return Ok;
    }

    /** One turn of the loop of ssl_client_handshake. */
    method Step(a: Answer) returns (ret: Wait)
      requires state != Done
      modifies this, ssl
      ensures Did(ret, Do(old(Now()), a))
      ensures ret != Error ==> Rises(old(Now()), ret, Now()) && (state == old(state) ==> Now() == old(Now()))
      ensures ret != Error && !(old(state) == ReadHelloVerifyRequest && old(ssl.buf) == Some(HelloVerifyRequest)) ==>
          Exact(old(ssl.Now()), ssl.Now())
    {
      hide DoHello, DoServerFlight, DoClientFlight, DoEnd, Rises, Exact;
      ghost var before := Now();
      StepKeeps(before, a);
      match state {
        case StartConnect => ret := DoStartConnect();
        case EnterEarlyData => ret := DoEnterEarlyData();
        case ReadHelloVerifyRequest => ret := DoReadHelloVerifyRequest();
        case ReadServerHello => ret := DoReadServerHello();
        case ReadServerCertificate => ret := DoReadServerCertificate();
        case ReadCertificateStatus => ret := DoReadCertificateStatus();
        case VerifyServerCertificate => ret := DoVerifyServerCertificate(a);
        case ReadServerKeyExchange => ret := DoReadServerKeyExchange();
        case ReadCertificateRequest => ret := DoReadCertificateRequest();
        case ReadServerHelloDone => ret := DoReadServerHelloDone();
        case SendClientCertificate => ret := DoSendClientCertificate(a);
        case SendClientKeyExchange => ret := DoSendClientKeyExchange(a);
        case SendClientCertificateVerify => ret := DoSendClientCertificateVerify(a);
        case SendClientFinished => ret := DoSendClientFinished(a);
        case FinishFlight => ret := DoFinishFlight();
        case ReadSessionTicket => ret := DoReadSessionTicket();
        case ProcessChangeCipherSpec => ret := DoProcessChangeCipherSpec();
        case ReadServerFinished => ret := DoReadServerFinished();
        case FinishClientHandshake => ret := DoFinishClientHandshake();
      }
    }
  }
}
