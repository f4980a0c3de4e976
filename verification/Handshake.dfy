/** What the two machines of a TLS 1.2-and-below handshake exchange, each
    message abstracted to its type and the facts that decide a branch. */
module Handshake {
  import opened Options

  /** A Finished message carries a MAC of the transcript before it; `hash` is that
      transcript, which no other transcript has the MAC of. */
  datatype Msg =
    | ClientHello
    | HelloVerifyRequest
    | ServerHello(neg: Neg)
    | Certificate(present: bool)
    | CertificateStatus
    | ServerKeyExchange
    | CertificateRequest
    | ServerHelloDone
    | ClientKeyExchange
    | CertificateVerify
    | NextProto
    | ChannelId
    | NewSessionTicket
    | Finished(byServer: bool, hash: seq<Msg>)

  /** Key exchange and authentication of the cipher. */
  datatype Kex = Rsa | Ecdhe | Psk | EcdhePsk

  /** What a ServerHello decides. */
  datatype Neg = Neg(resumed: bool, kex: Kex, ocsp: bool, ticket: bool, npn: bool, channelId: bool)

  /** What a flight is made of; a ChangeCipherSpec is not a handshake message. */
  datatype Item = Hs(m: Msg) | Ccs

  /** ssl_hs_wait_t.  `Callback` stands for every wait on the application. */
  datatype Wait = Ok | Error | Flush | ReadMessage | ReadCcs | Callback | EarlyReturn

  /** The handshake machine runs, rather than resolve a wait first. */
  predicate Runs(wait: Wait) {
    wait == Ok || wait == Callback || wait == EarlyReturn
  }

  /** What an application callback answers, where a step asks one. */
  datatype Answer = Ready | Retry | Failed

  /** ssl_cipher_uses_certificate_auth. */
  predicate CertAuth(kex: Kex) {
    kex == Rsa || kex == Ecdhe
  }

  /** ssl_cipher_requires_server_key_exchange. */
  predicate RequiresSkx(kex: Kex) {
    kex == Ecdhe || kex == EcdhePsk
  }

  /** The handshake messages among some items. */
  function Messages(items: seq<Item>): seq<Msg> {
    if items == [] then []
    else if items[0].Hs? then [items[0].m] + Messages(items[1..]) else Messages(items[1..])
  }

  // -- Messages in and out ---------------------------------------------------------------------

  /** The transcript, the flight that is not flushed yet, and the message that
      get_message returns. */
  datatype Io = Io(transcript: seq<Msg>, pending: seq<Item>, buf: Option<Msg>)

  /** ssl_add_message_cbb: the message joins the flight and the transcript. */
  function Send(io: Io, m: Msg): Io {
    Io(io.transcript + [m], io.pending + [Hs(m)], io.buf)
  }

  function SendIf(io: Io, cond: bool, m: Msg): Io {
    if cond then Send(io, m) else io
  }

  /** add_change_cipher_spec. */
  function SendCcs(io: Io): Io {
    io.(pending := io.pending + [Ccs])
  }

  /** ssl_hash_message and next_message. */
  function Consume(io: Io): Io
    requires io.buf.Some?
  {
    Io(io.transcript + [io.buf.value], io.pending, None)
  }

  /** What the two machines do to the connection: the transcript in the SSL_HANDSHAKE,
      the flight of ssl->s3 and the message its method hands out. */
  class Connection {
    var transcript: seq<Msg>
    var pending: seq<Item>
    var buf: Option<Msg>

    function Now(): Io
      reads this
    {
      Io(transcript, pending, buf)
    }

    constructor ()
      ensures Now() == Io([], [], None)
    {
      transcript, pending, buf := [], [], None;
    }

    /** What resolving a wait has made of it. */
    method Become(io: Io)
      modifies this
      ensures Now() == io
    {
      transcript, pending, buf := io.transcript, io.pending, io.buf;
    }

    /** ssl_add_message_cbb. */
    method AddMessage(m: Msg)
      modifies this
      ensures Now() == Send(old(Now()), m)
    {
      pending := pending + [Hs(m)];
      transcript := transcript + [m];
    }

    /** add_change_cipher_spec. */
    method AddChangeCipherSpec()
      modifies this
      ensures Now() == SendCcs(old(Now()))
    {
      pending := pending + [Ccs];
    }

    /** ssl_send_finished. */
    method SendFinished(byServer: bool)
      modifies this
      ensures Now() == Send(old(Now()), Finished(byServer, old(transcript)))
    {
      AddMessage(Finished(byServer, transcript));
    }

    /** ssl_hash_message on the current message. */
    method HashMessage()
      requires buf.Some?
      modifies this
      ensures Now() == old(Now()).(transcript := old(transcript) + [old(buf).value])
    {
      transcript := transcript + [buf.value];
    }

    /** next_message. */
    method NextMessage()
      modifies this
      ensures Now() == old(Now()).(buf := None)
    {
      buf := None;
    }

    /** ssl_get_finished.  A Finished message is hashed before its MAC is compared. */
    method GetFinished(byServer: bool) returns (ret: Wait)
      modifies this
      ensures if old(buf).None? then ret == ReadMessage && Now() == old(Now())
              else if !old(buf).value.Finished? then ret == Error && Now() == old(Now())
              else if old(buf).value == Finished(byServer, old(transcript))
              then ret == Ok && Now() == Consume(old(Now()))
              else ret == Error && Now() == old(Now()).(transcript := old(transcript) + [old(buf).value])
    {
      if buf.None? {
        return ReadMessage;
      }
      if !buf.value.Finished? {
        return Error;
      }
      // The MAC is taken before the new message is incorporated.
      var finished := Finished(byServer, transcript);
      HashMessage();
      if buf.value != finished {
        return Error;
      }
      NextMessage();
      return Ok;
    }
  }

  /** The messages handled between two moments: the one consumed, then those sent. */
  function Handled(io: Io, io': Io): seq<Msg>
    requires |io.pending| <= |io'.pending|
  {
    (if io.buf.Some? && io'.buf.None? then [io.buf.value] else []) + Messages(io'.pending[|io.pending|..])
  }

  /** What was handled entered the transcript once, in order. */
  ghost predicate Exact(io: Io, io': Io) {
    io.pending <= io'.pending && io'.transcript == io.transcript + Handled(io, io')
  }

  lemma {:induction false} MessagesAppend(a: seq<Item>, b: seq<Item>)
    ensures Messages(a + b) == Messages(a) + Messages(b)
  {
    if a == [] {
      assert a + b == b;
    } else {
      assert (a + b)[1..] == a[1..] + b;
      MessagesAppend(a[1..], b);
    }
  }

  lemma OneMessage(m: Msg)
    ensures Messages([Hs(m)]) == [m] && Messages([Ccs]) == []
  {
    assert [Hs(m)][1..] == [] && [Ccs][1..] == [];
  }

  lemma SendsExact(io: Io, items: seq<Item>)
    ensures Exact(io, Io(io.transcript + Messages(items), io.pending + items, io.buf))
  {
    assert (io.pending + items)[|io.pending|..] == items;
    assert [] + Messages(items) == Messages(items);
  }

  lemma NothingExact(io: Io)
    ensures Exact(io, io)
  {
    SendsExact(io, []);
    assert io.transcript + [] == io.transcript && io.pending + [] == io.pending;
  }

  lemma SendExact(io: Io, m: Msg)
    ensures Exact(io, Send(io, m))
  {
    OneMessage(m);
    SendsExact(io, [Hs(m)]);
  }

  lemma ConsumeExact(io: Io)
    requires io.buf.Some?
    ensures Exact(io, Consume(io))
  {
    assert io.pending[|io.pending|..] == [];
    assert [io.buf.value] + [] == [io.buf.value];
  }

  lemma Untouched(io: Io)
    ensures Exact(io, io) && (io.buf.Some? ==> Exact(io, Consume(io)))
  {
    NothingExact(io);
    if io.buf.Some? {
      ConsumeExact(io);
    }
  }

  /** Sending keeps what was exact, message after message. */
  lemma ExactSend(io: Io, io': Io, m: Msg)
    requires Exact(io, io') && io.buf == io'.buf
    ensures Exact(io, Send(io', m))
  {
    var more := io'.pending[|io.pending|..];
    assert (io'.pending + [Hs(m)])[|io.pending|..] == more + [Hs(m)];
    OneMessage(m);
    MessagesAppend(more, [Hs(m)]);
  }

  lemma ExactSendCcs(io: Io, io': Io)
    requires Exact(io, io') && io.buf == io'.buf
    ensures Exact(io, SendCcs(io'))
  {
    var more := io'.pending[|io.pending|..];
    assert (io'.pending + [Ccs])[|io.pending|..] == more + [Ccs];
    OneMessage(ClientHello);
    MessagesAppend(more, [Ccs]);
  }
}
