/** Handshake messages over the TLS record stream (s3_both.cc): message boundaries
    have nothing to do with record boundaries, and no message crosses a change of
    keys. */
module TlsMessages {
  import opened Bytes
  import opened BigEndian
  import opened Options

  const SSL3_HM_HEADER_LENGTH := 4
  const SSL3_RT_HANDSHAKE: byte := 22

  datatype HsMessage = HsMessage(msgType: byte, body: seq<byte>)

  /** The body fits its 24-bit length prefix. */
  predicate Fits(m: HsMessage) {
    |m.body| < TWO24
  }

  /** ssl3_init_message and ssl3_finish_message. */
  function Raw(m: HsMessage): (s: seq<byte>)
    ensures |s| == SSL3_HM_HEADER_LENGTH + |m.body|
  {
    [m.msgType] + Encode(|m.body|, 3) + m.body
  }

  /** SSLMessage, or out_bytes_needed. */
  datatype Parsed = Complete(m: HsMessage) | Needs(bytes: nat)

  /** parse_message; an absent hs_buf reads as an empty one. */
  function ParseMessage(buf: seq<byte>): Parsed {
    if |buf| < SSL3_HM_HEADER_LENGTH then Needs(SSL3_HM_HEADER_LENGTH)
    else
      var len := Value(buf[1..4]);
      if |buf| < SSL3_HM_HEADER_LENGTH + len then Needs(SSL3_HM_HEADER_LENGTH + len)
      else Complete(HsMessage(buf[0], buf[4..4 + len]))
  }

  lemma ParseOfRaw(m: HsMessage, rest: seq<byte>)
    requires Fits(m)
    ensures ParseMessage(Raw(m) + rest) == Complete(m)
  {
    var buf := Raw(m) + rest;
    assert buf[1..4] == Encode(|m.body|, 3);
    Pow256Values();
    ValueOfEncode(|m.body|, 3);
    assert buf[4..4 + |m.body|] == m.body;
  }

  /** A prefix of a message asks for more than there is, and never for more than the message. */
  lemma ParseOfPart(m: HsMessage, n: nat)
    requires Fits(m) && n < |Raw(m)|
    ensures ParseMessage(Raw(m)[..n]).Needs? && n < ParseMessage(Raw(m)[..n]).bytes <= |Raw(m)|
  {
    if n >= SSL3_HM_HEADER_LENGTH {
      assert Raw(m)[..n][1..4] == Encode(|m.body|, 3);
      Pow256Values();
      ValueOfEncode(|m.body|, 3);
    }
  }

  lemma RawOfParse(buf: seq<byte>)
    requires ParseMessage(buf).Complete?
    ensures var m := ParseMessage(buf).m;
            Fits(m) && |Raw(m)| <= |buf| && buf == Raw(m) + buf[|Raw(m)|..]
  {
    var m := ParseMessage(buf).m;
    Pow256Values();
    EncodeOfValue(buf[1..4]);
    assert buf == [buf[0]] + buf[1..4] + m.body + buf[4 + |m.body|..];
  }

  // -- Message streams -------------------------------------------------------------------------

  function Stream(msgs: seq<HsMessage>): seq<byte> {
    if msgs == [] then [] else Raw(msgs[0]) + Stream(msgs[1..])
  }

  predicate AllFit(msgs: seq<HsMessage>) {
    forall k :: 0 <= k < |msgs| ==> Fits(msgs[k])
  }

  lemma {:induction false} StreamAppend(a: seq<HsMessage>, b: seq<HsMessage>)
    ensures Stream(a + b) == Stream(a) + Stream(b)
  {
    if a == [] {
      assert a + b == b;
    } else {
      assert (a + b)[1..] == a[1..] + b;
      StreamAppend(a[1..], b);
      Assoc(Raw(a[0]), Stream(a[1..]), Stream(b));
    }
  }

  lemma StreamOfOne(m: HsMessage)
    ensures Stream([m]) == Raw(m)
  {
    assert [m][1..] == [] && Raw(m) + [] == Raw(m);
  }

  /** A stream can be cut into messages in one way only. */
  lemma {:induction false} CutOneWay(taken: seq<HsMessage>, tail: seq<byte>, sent: seq<HsMessage>)
    requires AllFit(taken) && AllFit(sent) && Stream(taken) + tail == Stream(sent)
    ensures taken <= sent && tail == Stream(sent[|taken|..])
  {
    hide ParseMessage, Raw;
    if taken == [] {
      assert [] + tail == tail;
    } else {
      var rest := Stream(taken[1..]) + tail;
      Assoc(Raw(taken[0]), Stream(taken[1..]), tail);
      assert Stream(sent) == Raw(taken[0]) + rest;
      assert sent != [];
      ParseOfRaw(taken[0], rest);
      ParseOfRaw(sent[0], Stream(sent[1..]));
      assert rest == Stream(sent)[|Raw(taken[0])|..] == Stream(sent[1..]);
      CutOneWay(taken[1..], tail, sent[1..]);
      assert sent[1..][|taken| - 1..] == sent[|taken|..];
    }
  }

  /** What a buffer holds of a message followed by anything. */
  lemma FrontOf(m: HsMessage, rest: seq<byte>, buf: seq<byte>, more: seq<byte>)
    requires Fits(m) && buf + more == Raw(m) + rest
    ensures var parsed := ParseMessage(buf);
            if |Raw(m)| <= |buf| then parsed == Complete(m)
            else parsed.Needs? && |buf| < parsed.bytes <= |Raw(m)|
  {
    hide ParseMessage, Raw;
    var n := |Raw(m)|;
    assert (Raw(m) + rest)[..n] == Raw(m);
    if n <= |buf| {
      assert buf[..n] == (buf + more)[..n];
      assert buf == Raw(m) + buf[n..];
      ParseOfRaw(m, buf[n..]);
    } else {
      assert buf == (buf + more)[..|buf|] == Raw(m)[..|buf|];
      ParseOfPart(m, |buf|);
    }
  }

  /** However the stream of `sent` was cut into records, once its first `n` bytes have
      come the messages taken are the first ones sent, and the next one is current
      exactly when all of it has come; otherwise no more is asked for than it has. */
  lemma ReadsWhatWasSent(taken: seq<HsMessage>, buf: seq<byte>, sent: seq<HsMessage>, n: nat)
    requires AllFit(taken) && AllFit(sent)
    requires n <= |Stream(sent)| && Stream(taken) + buf == Stream(sent)[..n]
    ensures taken <= sent
    ensures var parsed := ParseMessage(buf);
            if |taken| == |sent| then parsed.Needs? && n == |Stream(sent)|
            else
              var next := |Stream(taken + [sent[|taken|]])|;
              if next <= n then parsed == Complete(sent[|taken|])
              else parsed.Needs? && n < |Stream(taken)| + parsed.bytes <= next
  {
    hide ParseMessage, Raw, Stream;
    var more := Stream(sent)[n..];
    Assoc(Stream(taken), buf, more);
    CutOneWay(taken, buf + more, sent);
    Heads(sent, |taken|);
    if |taken| < |sent| {
      var m := sent[|taken|];
      StreamAppend(taken, [m]);
      StreamOfOne(m);
      FrontOf(m, Stream(sent[|taken| + 1..]), buf, more);
    } else {
      assert buf == [];
      NothingThere();
    }
  }

  lemma Heads(msgs: seq<HsMessage>, k: nat)
    requires k <= |msgs|
    ensures Stream(msgs[k..]) == if k < |msgs| then Raw(msgs[k]) + Stream(msgs[k + 1..]) else []
  {
    if k < |msgs| {
      assert msgs[k..][1..] == msgs[k + 1..];
    }
  }

  lemma NothingThere()
    ensures ParseMessage([]) == Needs(SSL3_HM_HEADER_LENGTH)
  {
  }

  // -- The reader ------------------------------------------------------------------------------

  /** The bytes from `lo` to `hi` came under one key. */
  ghost predicate OneKey(keys: seq<nat>, lo: nat, hi: nat) {
    hi <= |keys| && forall i :: lo <= i < hi ==> keys[i] == keys[lo]
  }

  /** Each message came under one key. */
  ghost predicate Unmixed(msgs: seq<HsMessage>, keys: seq<nat>) {
    forall k :: 0 <= k < |msgs| ==> OneKey(keys, |Stream(msgs[..k])|, |Stream(msgs[..k + 1])|)
  }

  class Reader {
    var hsBuf: Option<seq<byte>>
    var hasMessage: bool
    /** How often the read keys have changed. */
    var key: nat
    /** Every byte of handshake records, the key of each, and the messages done with. */
    ghost var Received: seq<byte>
    ghost var Keys: seq<nat>
    ghost var Taken: seq<HsMessage>

    function Buf(): seq<byte>
      reads this
    {
      match hsBuf case None => [] case Some(b) => b
    }

    /** What has been reported as the current message. */
    function Reported(): nat
      reads this
    {
      if hasMessage && ParseMessage(Buf()).Complete? then |Raw(ParseMessage(Buf()).m)| else 0
    }

    ghost predicate Valid()
      reads this
    {
      && AllFit(Taken) && Received == Stream(Taken) + Buf() && |Keys| == |Received|
      && (hasMessage ==> ParseMessage(Buf()).Complete?)
      && Unmixed(Taken, Keys)
      && var start := |Stream(Taken)|;
         && OneKey(Keys, start, start + Reported())
         && forall i :: start + Reported() <= i < |Keys| ==> Keys[i] == key
    }

    constructor ()
      ensures Valid() && Received == [] && Taken == [] && key == 0
    {
      hsBuf, hasMessage, key := None, false, 0;
      Received, Keys, Taken := [], [], [];
    }

    /** The complete message at the front of the buffer, if there is one. */
    function Current(): Option<HsMessage>
      reads this
    {
      var parsed := ParseMessage(Buf());
      if parsed.Complete? then Some(parsed.m) else None
    }

    /** ssl3_get_message. */
    method GetMessage() returns (msg: Option<HsMessage>)
      requires Valid()
      modifies `hasMessage
      ensures Valid()
      ensures msg == Current() && hasMessage == (old(hasMessage) || msg.Some?)
    {
      hide ParseMessage, Raw, Value, Stream;
      msg := Current();
      if msg.Some? {
        RawOfParse(Buf());
        hasMessage := true;
      }
    }

    /** tls_can_accept_handshake_data. */
    function CanAccept(maxLen: nat): bool
      reads this
    {
      match ParseMessage(Buf())
      case Complete(_) => false
      case Needs(bytes) => bytes <= SSL3_HM_HEADER_LENGTH + maxLen
    }

    /** A message of which nothing is there yet, or that is announced with at most `maxLen`
        bytes and has not all come. */
    ghost predicate Expects(maxLen: nat)
      reads this
    {
      |Buf()| < 4 || (Value(Buf()[1..4]) <= maxLen && |Buf()| < 4 + Value(Buf()[1..4]))
    }

    lemma AcceptsExpected(maxLen: nat)
      ensures CanAccept(maxLen) <==> Expects(maxLen)
    {
    }

    /** ssl3_open_handshake on the record that tls_open_record would open, if any. */
    method OpenHandshake(record: Option<(byte, seq<byte>)>, maxLen: nat) returns (ok: bool)
      requires Valid()
      modifies `hsBuf, `Received, `Keys
      ensures Valid()
      ensures ok <==> old(Expects(maxLen)) && record.Some? && record.value.0 == 22
      ensures Received == if ok then old(Received) + record.value.1 else old(Received)
      ensures old(Keys) <= Keys
    {
      hide ParseMessage, Raw, Value, Stream;
      AcceptsExpected(maxLen);
      if hsBuf.None? {
        hsBuf := Some([]);
      }
      if !CanAccept(maxLen) || record.None? || record.value.0 != SSL3_RT_HANDSHAKE {
        return false;
      }
      assert !hasMessage;
      var body := record.value.1;
      Assoc(Stream(Taken), hsBuf.value, body);
      ghost var before, now := Keys, key;
      hsBuf := Some(hsBuf.value + body);
      Received, Keys := Received + body, Keys + seq(|body|, _ => now);
      StillUnmixed(Taken, before, Keys);
      return true;
    }

    /** tls_has_unprocessed_handshake_data. */
    function HasUnprocessed(): bool
      reads this
    {
      hsBuf.Some? && |hsBuf.value| > Reported()
    }

    /** ssl3_set_read_state: refused while bytes of the old keys are left over. */
    method SetReadState() returns (ok: bool)
      requires Valid()
      modifies `key
      ensures Valid()
      ensures ok <==> Buf() == if hasMessage && Current().Some? then Raw(Current().value) else []
      ensures key == if ok then old(key) + 1 else old(key)
    {
      hide ParseMessage, Raw, Value, Stream;
      if hasMessage && Current().Some? {
        RawOfParse(Buf());
        ghost var n := |Raw(Current().value)|;
        assert |Buf()| == n ==> Buf()[n..] == [] && Raw(Current().value) + [] == Raw(Current().value);
      }
      if HasUnprocessed() {
        return false;
      }
      key := key + 1;
      return true;
    }

    /** ssl3_next_message. */
    method NextMessage(inInit: bool)
      requires Valid()
      modifies `hsBuf, `hasMessage, `Taken
      ensures Valid()
      ensures if old(Current()).Some?
              then Taken == old(Taken) + [old(Current()).value] && !hasMessage
                  && old(Buf()) == Raw(old(Current()).value) + Buf()
              else Taken == old(Taken) && Buf() == old(Buf())
    {
      hide ParseMessage, Raw, Value, Stream, Unmixed;
      var msg := GetMessage();
      if msg.None? {
        return;
      }
      var m := msg.value;
      RawOfParse(Buf());
      ghost var buf := Buf();
      StreamAppend(Taken, [m]);
      StreamOfOne(m);
      OneMoreUnmixed(Taken, m, Keys);
      Assoc(Stream(Taken), Raw(m), buf[|Raw(m)|..]);
      hsBuf := Some(hsBuf.value[|Raw(m)|..]);
      hasMessage := false;
      Taken := Taken + [m];
      if !inInit && |hsBuf.value| == 0 {
        hsBuf := None;
      }
    }
  }

  lemma StillUnmixed(msgs: seq<HsMessage>, keys: seq<nat>, keys': seq<nat>)
    requires Unmixed(msgs, keys) && keys <= keys'
    ensures Unmixed(msgs, keys')
  {
    forall k | 0 <= k < |msgs|
      ensures OneKey(keys', |Stream(msgs[..k])|, |Stream(msgs[..k + 1])|)
    {
      assert OneKey(keys, |Stream(msgs[..k])|, |Stream(msgs[..k + 1])|);
    }
  }

  lemma OneMoreUnmixed(msgs: seq<HsMessage>, m: HsMessage, keys: seq<nat>)
    requires Unmixed(msgs, keys) && OneKey(keys, |Stream(msgs)|, |Stream(msgs + [m])|)
    ensures Unmixed(msgs + [m], keys)
  {
    hide Stream;
    var all := msgs + [m];
    forall k | 0 <= k < |all|
      ensures OneKey(keys, |Stream(all[..k])|, |Stream(all[..k + 1])|)
    {
      if k < |msgs| {
        assert all[..k] == msgs[..k] && all[..k + 1] == msgs[..k + 1];
        assert OneKey(keys, |Stream(msgs[..k])|, |Stream(msgs[..k + 1])|);
      } else {
        assert all[..k] == msgs && all[..k + 1] == all;
      }
    }
  }
}
