/** DTLS handshake messages and their fragments on the wire (section 4.2.2 of
    RFC 6347): the 12-byte header and what it announces. */
module DtlsFragment {
  import opened Bytes
  import opened Options
  import opened BigEndian

  const DTLS1_HM_HEADER_LENGTH := 12

  /** hm_header_st. */
  datatype Header = Header(msgType: byte, msgLen: nat, msgSeq: nat, fragOff: nat, fragLen: nat)

  datatype Fragment = Fragment(hdr: Header, body: seq<byte>, rest: seq<byte>)

  /** A handshake message; `msgSeq` is its position among all messages sent. */
  datatype Message = Message(msgType: byte, msgSeq: nat, body: seq<byte>)

  predicate Fits(h: Header) {
    h.msgLen < TWO24 && h.msgSeq < TWO16 && h.fragOff < TWO24 && h.fragLen < TWO24
  }

  function Serialize(h: Header): (s: seq<byte>)
    ensures |s| == DTLS1_HM_HEADER_LENGTH
  {
    [h.msgType] + Encode(h.msgLen, 3) + Encode(h.msgSeq, 2) + Encode(h.fragOff, 3) + Encode(h.fragLen, 3)
  }

  /** dtls1_parse_fragment. */
  function ParseFragment(input: seq<byte>): (r: Option<Fragment>)
    ensures r.Some? ==> Fits(r.value.hdr) && |r.value.body| == r.value.hdr.fragLen
    ensures r.Some? ==> |r.value.rest| < |input|
  {
    if |input| < DTLS1_HM_HEADER_LENGTH then None
    else
      Pow256Values();
      var h := Header(input[0], Value(input[1..4]), Value(input[4..6]), Value(input[6..9]), Value(input[9..12]));
      if |input| < DTLS1_HM_HEADER_LENGTH + h.fragLen then None
      else Some(Fragment(h, input[12..12 + h.fragLen], input[12 + h.fragLen..]))
  }

  /** The fragment of `m` at `off` with `len` bytes. */
  function Slice(m: Message, off: nat, len: nat): (r: seq<byte>)
    requires off + len <= |m.body|
    ensures |r| == DTLS1_HM_HEADER_LENGTH + len
  {
    Serialize(Header(m.msgType, |m.body|, m.msgSeq, off, len)) + m.body[off..off + len]
  }

  /** A whole message as one fragment, the form the handshake hash covers
      (section 4.2.6 of RFC 6347). */
  function Raw(m: Message): seq<byte> {
    Slice(m, 0, |m.body|)
  }

  predicate Sendable(m: Message) {
    |m.body| < TWO24 && m.msgSeq < TWO16
  }

  lemma HeaderParses(h: Header, input: seq<byte>)
    requires Fits(h) && |input| >= DTLS1_HM_HEADER_LENGTH && input[..12] == Serialize(h)
    ensures Header(input[0], Value(input[1..4]), Value(input[4..6]), Value(input[6..9]), Value(input[9..12])) == h
  {
    var a, b, c, d := Encode(h.msgLen, 3), Encode(h.msgSeq, 2), Encode(h.fragOff, 3), Encode(h.fragLen, 3);
    var s := Serialize(h);
    assert s[1..4] == a && s[4..6] == b && s[6..9] == c && s[9..12] == d;
    assert input[1..4] == input[..12][1..4] && input[4..6] == input[..12][4..6];
    assert input[6..9] == input[..12][6..9] && input[9..12] == input[..12][9..12];
    hide Value, Encode;
    Pow256Values();
    ValueOfEncode(h.msgLen, 3);
    ValueOfEncode(h.msgSeq, 2);
    ValueOfEncode(h.fragOff, 3);
    ValueOfEncode(h.fragLen, 3);
  }

  /** What is serialized parses back, and the rest is left for the next call. */
  lemma FragmentParses(h: Header, body: seq<byte>, rest: seq<byte>)
    requires Fits(h) && |body| == h.fragLen
    ensures ParseFragment(Serialize(h) + body + rest) == Some(Fragment(h, body, rest))
  {
    var input := Serialize(h) + body + rest;
    assert input[..12] == Serialize(h);
    HeaderParses(h, input);
    assert input[12..12 + h.fragLen] == body && input[12 + h.fragLen..] == rest;
  }

  lemma SliceParses(m: Message, off: nat, len: nat, rest: seq<byte>)
    requires Sendable(m) && off + len <= |m.body|
    ensures ParseFragment(Slice(m, off, len) + rest)
         == Some(Fragment(Header(m.msgType, |m.body|, m.msgSeq, off, len), m.body[off..off + len], rest))
  {
    FragmentParses(Header(m.msgType, |m.body|, m.msgSeq, off, len), m.body[off..off + len], rest);
  }
}
