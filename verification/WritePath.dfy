/** The TLS write path (s3_both.cc, s3_pkt.cc): sealed records wait in a write
    buffer and in a pending flight, and leave in the order they were sealed. */
module WritePath {
  import opened Bytes
  import opened Options

  const SSL3_RT_CHANGE_CIPHER_SPEC: byte := 20
  const SSL3_RT_ALERT: byte := 21
  const SSL3_RT_HANDSHAKE: byte := 22
  const SSL3_RT_APPLICATION_DATA: byte := 23
  const SSL3_RT_MAX_PLAIN_LENGTH := 16384
  const INT_MAX := 0x7FFF_FFFF

  /** What tls_seal_record made of a plaintext. */
  datatype Sealed = Sealed(contentType: byte, plain: seq<byte>, wire: seq<byte>)

  /** The bytes of the records, in sealing order. */
  function Wire(records: seq<Sealed>): seq<byte> {
    if records == [] then [] else Wire(records[..|records| - 1]) + records[|records| - 1].wire
  }

  /** The plaintext sealed in records of one type, in order. */
  function Plain(contentType: byte, records: seq<Sealed>): seq<byte> {
    if records == [] then []
    else
      var n := |records| - 1;
      Plain(contentType, records[..n]) + if records[n].contentType == contentType then records[n].plain else []
  }

  lemma PlainMore(t: byte, records: seq<Sealed>, r: Sealed)
    ensures Plain(t, records + [r]) == if r.contentType == t then Plain(t, records) + r.plain else Plain(t, records)
  {
    assert (records + [r])[..|records|] == records;
    assert Plain(t, records) + [] == Plain(t, records);
  }

  /** Order and conservation: what was sent, what waits in the write buffer and
      what waits in the flight are the sealed records, in sealing order. */
  ghost predicate InOrder(sent: seq<byte>, buffer: seq<byte>, unsent: seq<byte>, records: seq<Sealed>) {
    sent + (buffer + unsent) == Wire(records)
  }

  lemma BufferOut(sent: seq<byte>, buffer: seq<byte>, unsent: seq<byte>, records: seq<Sealed>, n: nat)
    requires InOrder(sent, buffer, unsent, records) && n <= |buffer|
    ensures InOrder(sent + buffer[..n], buffer[n..], unsent, records)
  {
    assert buffer[..n] + (buffer[n..] + unsent) == buffer + unsent;
    Assoc(sent, buffer[..n], buffer[n..] + unsent);
  }

  lemma FlightOut(sent: seq<byte>, flight: seq<byte>, at: nat, records: seq<Sealed>, n: nat)
    requires at + n <= |flight| && InOrder(sent, [], flight[at..], records)
    ensures InOrder(sent + flight[at..][..n], [], flight[at + n..], records)
  {
    Uncork(sent, flight[at..], records);
    BufferOut(sent, flight[at..], [], records, n);
    assert flight[at..][n..] == flight[at + n..];
    Uncork(sent + flight[at..][..n], flight[at + n..], records);
  }

  /** With an empty write buffer, the flight may as well be in the buffer. */
  lemma Uncork(sent: seq<byte>, unsent: seq<byte>, records: seq<Sealed>)
    ensures InOrder(sent, [], unsent, records) <==> InOrder(sent, unsent, [], records)
  {
    assert [] + unsent == unsent == unsent + [];
  }

  lemma FlightIn(sent: seq<byte>, buffer: seq<byte>, unsent: seq<byte>, records: seq<Sealed>, r: Sealed)
    requires InOrder(sent, buffer, unsent, records)
    ensures InOrder(sent, buffer, unsent + r.wire, records + [r])
  {
    assert (records + [r])[..|records|] == records;
    Assoc(buffer, unsent, r.wire);
    Assoc(sent, buffer + unsent, r.wire);
  }

  lemma BufferIn(sent: seq<byte>, buffer: seq<byte>, records: seq<Sealed>, r: Sealed)
    requires InOrder(sent, buffer, [], records)
    ensures InOrder(sent, buffer + r.wire, [], records + [r])
  {
    Uncork(sent, buffer, records);
    FlightIn(sent, [], buffer, records, r);
    Uncork(sent, buffer + r.wire, records + [r]);
  }

  lemma Longer(base: seq<byte>, input: seq<byte>, at: nat, n: nat)
    requires at + n <= |input|
    ensures base + input[..at] + input[at..at + n] == base + input[..at + n]
  {
    assert input[..at] + input[at..at + n] == input[..at + n];
    Assoc(base, input[..at], input[at..at + n]);
  }

  lemma AllOut(sent: seq<byte>, records: seq<Sealed>)
    requires InOrder(sent, [], [], records)
    ensures sent == Wire(records)
  {
    assert sent + ([] + []) == sent;
  }

  /** Records were added, all of one type and none longer than `max`. */
  ghost predicate Adds(before: seq<Sealed>, after: seq<Sealed>, contentType: byte, max: nat) {
    && before <= after
    && forall k :: |before| <= k < |after| ==> after[k].contentType == contentType && |after[k].plain| <= max
  }

  datatype Shutdown = Open | CloseNotify | Failed

  /** A record sealed and not yet flushed: its length, the address of its
      plaintext in the caller's buffer, and its type. */
  datatype Pending = Pending(tot: nat, buf: int, contentType: byte)

  class Connection {
    var writeBuffer: seq<byte>
    var pendingFlight: Option<seq<byte>>
    var pendingFlightOffset: nat
    var wnum: nat
    /** wpend_pending and what goes with it. */
    var wpend: Option<Pending>
    var writeShutdown: Shutdown
    var alertDispatch: bool
    var sendAlert: seq<byte>
    var maxSendFragment: nat
    var acceptMovingWriteBuffer: bool
    var enablePartialWrite: bool
    /** Every record sealed so far, and every byte the transport has taken. */
    ghost var Records: seq<Sealed>
    ghost var Sent: seq<byte>
    /** The alerts that were to be sent, one after the other. */
    ghost var Alerts: seq<byte>

    /** The part of the pending flight that has not been written. */
    ghost function Unsent(): seq<byte>
      reads this
    {
      if pendingFlight.Some? && pendingFlightOffset <= |pendingFlight.value|
      then pendingFlight.value[pendingFlightOffset..] else []
    }

    /** The record of the alert is sealed, and being flushed. */
    ghost predicate AlertInProgress()
      reads this
    {
      wpend.Some? && wpend.value.contentType == SSL3_RT_ALERT
    }

    /** The alert that has not been sealed. */
    ghost function Waiting(): seq<byte>
      reads this
    {
      if alertDispatch && !AlertInProgress() then sendAlert else []
    }

    /** Every alert asked for has been sealed, once and in order, but the one waiting. */
    ghost predicate AlertsKept()
      reads this
    {
      && (alertDispatch ==> writeShutdown != Open)
      && (AlertInProgress() ==> alertDispatch && wpend.value.tot == 2)
      && Plain(SSL3_RT_ALERT, Records) + Waiting() == Alerts
    }

    ghost predicate Valid()
      reads this
    {
      Stored() && AlertsKept()
    }

    ghost predicate Stored()
      reads this
    {
      && InOrder(Sent, writeBuffer, Unsent(), Records)
      && (if pendingFlight.None? then pendingFlightOffset == 0 else pendingFlightOffset <= |pendingFlight.value|)
      && maxSendFragment > 0 && |sendAlert| == 2
      && (wpend.Some? ==> wpend.value.tot > 0)
    }

    constructor (maxSendFragment: nat, acceptMovingWriteBuffer: bool, enablePartialWrite: bool)
      requires maxSendFragment > 0
      ensures Valid() && Records == [] && Sent == [] && wnum == 0 && wpend == None
      ensures Alerts == [] && writeShutdown == Open
    {
      writeBuffer, pendingFlight, pendingFlightOffset, wnum, wpend := [], None, 0, 0, None;
      writeShutdown, alertDispatch, sendAlert := Open, false, [0, 0];
      this.maxSendFragment, this.acceptMovingWriteBuffer, this.enablePartialWrite :=
        maxSendFragment, acceptMovingWriteBuffer, enablePartialWrite;
      Records, Sent, Alerts := [], [], [];
    }

    /** tls_seal_record: any bytes, or failure. */
    method Seal(contentType: byte, plain: seq<byte>) returns (sealed: Option<seq<byte>>)
    {
      var ok: bool, wire: seq<byte> := *, *;
      return if ok then Some(wire) else None;
    }

    /** BIO_write: it takes part of the data, or fails with a result of 0 or less. */
    method BioWrite(data: seq<byte>) returns (ret: int)
      modifies `Sent
      ensures ret <= |data|
      ensures Sent == if ret > 0 then old(Sent) + data[..ret] else old(Sent)
    {
      ret := *;
      if ret > |data| {
        ret := |data|;
      }
      if ret > 0 {
        Sent := Sent + data[..ret];
      }
    }

    // -- Flights ----------------------------------------------------------------------------

    /** add_record_to_flight. */
    method AddRecordToFlight(contentType: byte, input: seq<byte>) returns (ok: bool, ghost r: Sealed)
      requires Valid() && pendingFlightOffset == 0
      modifies `pendingFlight, `Records, `Alerts
      ensures Valid()
      ensures ok ==> r.contentType == contentType && r.plain == input && Records == old(Records) + [r]
      ensures !ok ==> Records == old(Records)
      ensures Alerts == if ok && contentType == SSL3_RT_ALERT
                        then Plain(SSL3_RT_ALERT, old(Records)) + input + Waiting() else old(Alerts)
    {
      hide InOrder, Plain;
      if pendingFlight.None? {
        pendingFlight := Some([]);
      }
      var sealed := Seal(contentType, input);
      r := Sealed(contentType, input, []);
      if sealed.None? {
        return false, r;
      }
      r := Sealed(contentType, input, sealed.value);
      JoinFlight(r, sealed.value);
      return true, r;
    }

    /** The sealed record at the end of the flight. */
    method JoinFlight(ghost r: Sealed, wire: seq<byte>)
      requires Valid() && pendingFlight.Some? && pendingFlightOffset == 0 && r.wire == wire
      modifies `pendingFlight, `Records, `Alerts
      ensures Valid() && Records == old(Records) + [r]
      ensures Alerts == if r.contentType == SSL3_RT_ALERT
                        then Plain(SSL3_RT_ALERT, old(Records)) + r.plain + Waiting() else old(Alerts)
    {
      hide InOrder, Plain;
      ghost var unsent, alerts := pendingFlight.value, Plain(SSL3_RT_ALERT, Records);
      assert Unsent() == unsent;
      FlightIn(Sent, writeBuffer, unsent, Records, r);
      PlainMore(SSL3_RT_ALERT, Records, r);
      pendingFlight := Some(pendingFlight.value + wire);
      assert Unsent() == pendingFlight.value;
      Records := Records + [r];
      if r.contentType == SSL3_RT_ALERT {
        Alerts := alerts + r.plain + Waiting();
      }
    }

    /** ssl3_add_message, which splits a message over records; on failure a prefix
        of the message has been sealed. */
    method AddMessage(msg: seq<byte>) returns (ok: bool, ghost n: nat)
      requires Valid() && pendingFlightOffset == 0
      modifies `pendingFlight, `Records, `Alerts
      ensures Valid() && Adds(old(Records), Records, SSL3_RT_HANDSHAKE, maxSendFragment) && Alerts == old(Alerts)
      ensures n <= |msg| && Plain(SSL3_RT_HANDSHAKE, Records) == Plain(SSL3_RT_HANDSHAKE, old(Records)) + msg[..n]
      ensures ok ==> n == |msg|
      ensures Plain(SSL3_RT_APPLICATION_DATA, Records) == Plain(SSL3_RT_APPLICATION_DATA, old(Records))
    {
      hide InOrder, Plain;
      ghost var before := Plain(SSL3_RT_HANDSHAKE, Records);
      var done: nat := 0;
      assert before + msg[..0] == before;
      while true
        invariant Valid() && pendingFlightOffset == 0 && Alerts == old(Alerts)
        invariant Adds(old(Records), Records, SSL3_RT_HANDSHAKE, maxSendFragment)
        invariant done <= |msg| && (done == |msg| ==> done == 0)
        invariant Plain(SSL3_RT_HANDSHAKE, Records) == before + msg[..done]
        invariant Plain(SSL3_RT_APPLICATION_DATA, Records) == Plain(SSL3_RT_APPLICATION_DATA, old(Records))
        decreases |msg| - done
      {
        var size := if |msg| - done > maxSendFragment then maxSendFragment else |msg| - done;
        ghost var records := Records;
        var added, r := AddRecordToFlight(SSL3_RT_HANDSHAKE, msg[done..done + size]);
        if !added {
          return false, done;
        }
        PlainMore(SSL3_RT_HANDSHAKE, records, r);
        PlainMore(SSL3_RT_APPLICATION_DATA, records, r);
        Longer(before, msg, done, size);
        done := done + size;
        if done == |msg| {
          return true, done;
        }
      }
    }

    /** ssl3_add_change_cipher_spec. */
    method AddChangeCipherSpec() returns (ok: bool, ghost r: Sealed)
      requires Valid() && pendingFlightOffset == 0
      modifies `pendingFlight, `Records, `Alerts
      ensures Valid() && Alerts == old(Alerts)
      ensures ok ==> r.contentType == SSL3_RT_CHANGE_CIPHER_SPEC && r.plain == [1] && Records == old(Records) + [r]
      ensures !ok ==> Records == old(Records)
    {
      ok, r := AddRecordToFlight(SSL3_RT_CHANGE_CIPHER_SPEC, [1]);
    }

    /** ssl3_add_alert: a warning inside a flight. */
    method AddAlert(level: byte, desc: byte) returns (ok: bool, ghost r: Sealed)
      requires Valid() && pendingFlightOffset == 0
      modifies `pendingFlight, `Records, `Alerts
      ensures Valid()
      ensures ok ==> r.contentType == SSL3_RT_ALERT && r.plain == [level, desc] && Records == old(Records) + [r]
      ensures !ok ==> Records == old(Records) && Alerts == old(Alerts)
    {
      ok, r := AddRecordToFlight(SSL3_RT_ALERT, [level, desc]);
    }

    /** tls_write_buffer_flush. */
    method FlushWriteBuffer() returns (ret: int)
      requires Stored()
      modifies `writeBuffer, `Sent
      ensures Stored() && old(Sent) <= Sent
      ensures ret > 0 ==> ret == 1 && writeBuffer == []
      ensures ret <= 0 ==> writeBuffer != []
    {
      hide InOrder;
      while writeBuffer != []
        invariant Stored() && old(Sent) <= Sent
        decreases |writeBuffer|
      {
        ghost var sent := Sent;
        ret := BioWrite(writeBuffer);
        if ret <= 0 {
          return;
        }
        BufferOut(sent, writeBuffer, Unsent(), Records, ret);
        writeBuffer := writeBuffer[ret..];
      }
      ret := 1;
    }

    /** ssl3_flush_flight: "pending data in the write buffer must be flushed out
        before any new data in pending_flight".  Without a flight it succeeds at once, and
        what is in the write buffer stays there. */
    method FlushFlight() returns (ret: int)
      requires Valid()
      modifies `writeBuffer, `pendingFlight, `pendingFlightOffset, `Sent
      ensures Valid() && old(Sent) <= Sent
      ensures ret == 1 ==> pendingFlight == None
      ensures ret == 1 && old(pendingFlight).Some? ==> Sent == Wire(Records)
      ensures old(pendingFlight).None? ==> ret == 1 && Sent == old(Sent) && writeBuffer == old(writeBuffer)
      ensures old(pendingFlight).Some? && writeShutdown != Open ==> ret == -1 && Sent == old(Sent)
      ensures ret != 1 ==> ret <= 0 && pendingFlight == old(pendingFlight)
    {
      hide InOrder, Plain;
      if pendingFlight.None? {
        return 1;
      }
      if writeShutdown != Open {
        return -1;
      }
      if |pendingFlight.value| > INT_MAX {
        return -1;
      }
      if writeBuffer != [] {
        ret := FlushWriteBuffer();
        if ret <= 0 {
          return;
        }
      }
      ret := WriteFlight();
      if ret <= 0 {
        return;
      }
      AllOut(Sent, Records);
      var flushed: int := *;
      if flushed <= 0 {
        return -1;
      }
      pendingFlight := None;
      pendingFlightOffset := 0;
      return 1;
    }

    /** "Write the pending flight." */
    method WriteFlight() returns (ret: int)
      requires Stored() && pendingFlight.Some? && writeBuffer == []
      modifies `pendingFlightOffset, `Sent
      ensures Stored() && old(Sent) <= Sent
      ensures ret > 0 ==> Unsent() == []
    {
      hide InOrder;
      while pendingFlightOffset < |pendingFlight.value|
        invariant Stored() && old(Sent) <= Sent && pendingFlightOffset <= |pendingFlight.value|
        decreases |pendingFlight.value| - pendingFlightOffset
      {
        ghost var sent := Sent;
        ret := BioWrite(pendingFlight.value[pendingFlightOffset..]);
        if ret <= 0 {
          return;
        }
        FlightOut(sent, pendingFlight.value, pendingFlightOffset, Records, ret);
        pendingFlightOffset := pendingFlightOffset + ret;
      }
      ret := 1;
    }

    // -- Records written at once --------------------------------------------------------------

    /** How much of the caller's data beyond `wnum` is in the record being flushed. */
    ghost function InFlight(): nat
      reads this
    {
      if wpend.Some? && wpend.value.contentType == SSL3_RT_APPLICATION_DATA then wpend.value.tot else 0
    }

    /** A caller that began writing `input` when `base` had been sealed, and has
        come back with it after every failure. */
    ghost predicate Retrying(base: seq<byte>, input: seq<byte>)
      reads this
    {
      SealedUpTo(base, input, wnum)
    }

    ghost predicate SealedUpTo(base: seq<byte>, input: seq<byte>, tot: nat)
      reads this
    {
      && tot + InFlight() <= |input|
      && Plain(SSL3_RT_APPLICATION_DATA, Records) == base + input[..tot + InFlight()]
    }

    /** What concerns the caller's data is as it was. */
    twostate lemma RetryKept()
      requires wnum == old(wnum) && InFlight() == old(InFlight())
      requires Plain(SSL3_RT_APPLICATION_DATA, Records) == Plain(SSL3_RT_APPLICATION_DATA, old(Records))
      ensures forall base, input :: old(Retrying(base, input)) ==> Retrying(base, input)
    {
      hide Plain, InFlight;
    }

    /** This caller wrote the record that is being flushed: the same type, no shorter, and
        from the same place unless the buffer may move. */
    predicate Continues(contentType: byte, addr: int, len: nat)
      reads this
      requires wpend.Some?
    {
      && wpend.value.contentType == contentType && wpend.value.tot <= len
      && (acceptMovingWriteBuffer || wpend.value.buf == addr)
    }

    /** ssl3_write_pending. */
    method WritePending(contentType: byte, addr: int, len: nat) returns (ret: int)
      requires Stored() && wpend.Some?
      modifies `writeBuffer, `Sent, `wpend
      ensures Stored() && old(Sent) <= Sent
      ensures ret > 0 ==> wpend == None && ret == old(wpend).value.tot <= len && writeBuffer == []
      ensures ret > 0 ==> contentType == old(wpend).value.contentType
      ensures ret <= 0 ==> wpend == old(wpend)
      ensures !old(Continues(contentType, addr, len)) ==>
                ret == -1 && Sent == old(Sent) && writeBuffer == old(writeBuffer)
    {
      if wpend.value.tot > len || (!acceptMovingWriteBuffer && wpend.value.buf != addr)
          || wpend.value.contentType != contentType {
        return -1;
      }
      ret := FlushWriteBuffer();
      if ret <= 0 {
        return;
      }
      ret := wpend.value.tot;
      wpend := None;
    }

    /** The record, behind what is left of the flight, into the empty write buffer. */
    method SealBehindFlight(contentType: byte, input: seq<byte>) returns (ok: bool, ghost r: Sealed)
      requires Stored() && writeBuffer == []
      modifies `writeBuffer, `pendingFlight, `pendingFlightOffset, `Records
      ensures Stored() && pendingFlight == None
      ensures ok ==> r.contentType == contentType && r.plain == input && Records == old(Records) + [r]
      ensures !ok ==> Records == old(Records) && writeBuffer == old(Unsent())
    {
      hide InOrder;
      Uncork(Sent, Unsent(), Records);
      if pendingFlight.Some? {
        // Unflushed handshake data goes first.
        writeBuffer := pendingFlight.value[pendingFlightOffset..];
        pendingFlight := None;
        pendingFlightOffset := 0;
      }
      var sealed := Seal(contentType, input);
      r := Sealed(contentType, input, []);
      if sealed.None? {
        return false, r;
      }
      r := Sealed(contentType, input, sealed.value);
      BufferIn(Sent, writeBuffer, Records, r);
      writeBuffer := writeBuffer + sealed.value;
      Records := Records + [r];
      return true, r;
    }

    /** The same, with the arguments memorized for ssl3_write_pending. */
    method SealPending(contentType: byte, addr: int, input: seq<byte>) returns (ok: bool, ghost r: Option<Sealed>)
      requires Valid() && writeBuffer == [] && wpend == None && input != []
      requires contentType == SSL3_RT_ALERT ==> alertDispatch && input == sendAlert
      modifies `writeBuffer, `pendingFlight, `pendingFlightOffset, `Records, `wpend
      ensures Valid() && pendingFlight == None
      ensures ok ==>
                && r.Some? && r.value.contentType == contentType && r.value.plain == input
                && Records == old(Records) + [r.value] && wpend == Some(Pending(|input|, addr, contentType))
      ensures !ok ==> r == None && wpend == None && Records == old(Records) && writeBuffer == old(Unsent())
    {
      hide InOrder, Plain;
      r := None;
      assert Plain(SSL3_RT_ALERT, Records) + [] == Plain(SSL3_RT_ALERT, Records);
      ghost var record;
      ghost var before := Records;
      ok, record := SealBehindFlight(contentType, input);
      if !ok {
        return;
      }
      PlainMore(SSL3_RT_ALERT, before, record);
      r := Some(record);
      wpend := Some(Pending(|input|, addr, contentType));
      assert Plain(SSL3_RT_ALERT, Records) + [] == Plain(SSL3_RT_ALERT, Records);
    }

    /** do_ssl3_write: it flushes the record being written, or seals `r`.  In either
        case `ret` bytes of this type are done when it is positive.  When sealing fails
        the flight may have moved into the write buffer, where FlushFlight does not look
        for it. */
    method DoWrite(contentType: byte, addr: int, input: seq<byte>) returns (ret: int, ghost r: Option<Sealed>)
      requires Valid() && (contentType == SSL3_RT_ALERT ==> alertDispatch && input == sendAlert)
      modifies `writeBuffer, `pendingFlight, `pendingFlightOffset, `wpend, `Records, `Sent
      ensures Stored() && old(Sent) <= Sent
      ensures if ret > 0 && contentType == SSL3_RT_ALERT then Plain(SSL3_RT_ALERT, Records) == Alerts else AlertsKept()
      ensures match r
              case None => Records == old(Records)
              case Some(sealed) =>
                && old(wpend) == None && sealed.contentType == contentType && sealed.plain == input
                && 0 < |input| <= SSL3_RT_MAX_PLAIN_LENGTH && old(writeBuffer) == []
                && Records == old(Records) + [sealed]
      ensures ret > 0 ==>
                && wpend == None && ret <= |input| && writeBuffer == []
                && if r.Some? then ret == |input| && Sent == Wire(Records)
                   else old(wpend).Some? && old(wpend).value.tot == ret && old(wpend).value.contentType == contentType
      ensures ret <= 0 ==> wpend == if r.Some? then Some(Pending(|input|, addr, contentType)) else old(wpend)
      ensures old(wpend).Some? && !old(Continues(contentType, addr, |input|)) ==> ret == -1 && Sent == old(Sent)
      ensures r.None? && pendingFlight != old(pendingFlight) ==>
                pendingFlight == None && ret == -1 && old(writeBuffer) == [] && writeBuffer == old(Unsent())
    {
      hide InOrder, Plain;
      r := None;
      assert Plain(SSL3_RT_ALERT, Records) + [] == Plain(SSL3_RT_ALERT, Records);
      if wpend.Some? {
        ret := WritePending(contentType, addr, |input|);
        return;
      }
      if |input| > SSL3_RT_MAX_PLAIN_LENGTH || |writeBuffer| > 0 {
        return -1, r;
      }
      if |input| == 0 {
        return 0, r;
      }
      var enough: bool := *;
      if !enough {
        return -1, r;
      }
      var sealed;
      sealed, r := SealPending(contentType, addr, input);
      if !sealed {
        return -1, r;
      }
      ret := WritePending(contentType, addr, |input|);
      assert Plain(SSL3_RT_ALERT, Records) + [] == Plain(SSL3_RT_ALERT, Records);
      if ret > 0 {
        AllOut(Sent, Records);
      }
    }

    /** do_ssl3_write on the next `nw` bytes of application data after `tot`. */
    method WriteChunk(addr: int, input: seq<byte>, tot: nat, nw: nat, ghost base: seq<byte>) returns (ret: int)
      requires Valid() && tot + nw <= |input|
      modifies `writeBuffer, `pendingFlight, `pendingFlightOffset, `wpend, `Records, `Sent
      ensures Valid() && old(Sent) <= Sent && ret <= nw
      ensures Adds(old(Records), Records, SSL3_RT_APPLICATION_DATA, nw)
      ensures ret > 0 ==> wpend == None && writeBuffer == []
      ensures old(SealedUpTo(base, input, tot)) ==> SealedUpTo(base, input, if ret > 0 then tot + ret else tot)
    {
      hide InOrder, Plain;
      ghost var records, r := Records, None;
      ret, r := DoWrite(SSL3_RT_APPLICATION_DATA, addr + tot, input[tot..tot + nw]);
      if r.Some? {
        PlainMore(SSL3_RT_APPLICATION_DATA, records, r.value);
        Longer(base, input, tot, nw);
      }
    }

    /** ssl3_write_app_data.  While its caller comes back with the same data, each
        byte is sealed exactly once and in order. */
    method WriteAppData(addr: int, input: seq<byte>, ghost base: seq<byte>) returns (ret: int)
      requires Valid()
      modifies `wnum, `writeBuffer, `pendingFlight, `pendingFlightOffset, `wpend, `Records, `Sent
      ensures Valid() && old(Sent) <= Sent
      ensures ret <= |input|
      ensures old(Retrying(base, input)) ==>
                if ret > 0
                then wnum == 0 && wpend == None && Plain(SSL3_RT_APPLICATION_DATA, Records) == base + input[..ret]
                else Retrying(base, input)
      ensures ret > 0 && !enablePartialWrite ==> ret == |input|
      ensures Adds(old(Records), Records, SSL3_RT_APPLICATION_DATA, maxSendFragment)
      ensures ret > 0 ==> writeBuffer == []
      ensures writeShutdown != Open ==> ret == -1 && Records == old(Records) && Sent == old(Sent) && wnum == old(wnum)
    {
      hide InOrder, Plain;
      if writeShutdown != Open {
        return -1;
      }
      var tot: nat := wnum;
      wnum := 0;
      if |input| < tot {
        return -1;
      }
      var n: nat := |input| - tot;
      while true
        invariant Valid() && old(Sent) <= Sent && wnum == 0 && tot + n == |input|
        invariant Adds(old(Records), Records, SSL3_RT_APPLICATION_DATA, maxSendFragment)
        invariant old(Retrying(base, input)) ==> SealedUpTo(base, input, tot)
        decreases n
      {
        var nw := if n > maxSendFragment then maxSendFragment else n;
        ret := WriteChunk(addr, input, tot, nw, base);
        if ret <= 0 {
          wnum := tot;
          return;
        }
        if ret == n || enablePartialWrite {
          return tot + ret;
        }
        n := n - ret;
        tot := tot + ret;
      }
    }

    // -- Alerts -------------------------------------------------------------------------------

    /** ssl3_dispatch_alert; `addr` is where send_alert is kept.  A success is the alert in a
        record of its own, which has left with everything before it. */
    method DispatchAlert(addr: int) returns (ret: int)
      requires Valid() && alertDispatch
      modifies `writeBuffer, `pendingFlight, `pendingFlightOffset, `wpend, `Records, `Sent, `alertDispatch
      ensures Valid() && old(Sent) <= Sent
      ensures ret > 0 ==> ret == 1 && !alertDispatch && wpend == None && writeBuffer == []
      ensures ret > 0 ==> if old(AlertInProgress()) then Records == old(Records) else AlertAdded(old(Records))
      ensures ret > 0 && !old(AlertInProgress()) ==> Sent == Wire(Records)
      ensures ret <= 0 ==> alertDispatch && (Records == old(Records) || AlertAdded(old(Records)))
      ensures InFlight() == old(InFlight())
      ensures forall base, input :: old(Retrying(base, input)) ==> Retrying(base, input)
      ensures Plain(SSL3_RT_APPLICATION_DATA, Records) == Plain(SSL3_RT_APPLICATION_DATA, old(Records))
    {
      hide InOrder, Plain;
      ghost var r;
      ret, r := DoWrite(SSL3_RT_ALERT, addr, sendAlert);
      if r.Some? {
        PlainMore(SSL3_RT_APPLICATION_DATA, old(Records), r.value);
      }
      RetryKept();
      if ret <= 0 {
        return;
      }
      alertDispatch := false;
      RetryKept();
      assert Plain(SSL3_RT_ALERT, Records) + [] == Plain(SSL3_RT_ALERT, Records);
      return 1;
    }

    /** The alert to be sent was sealed in one record. */
    ghost predicate AlertAdded(before: seq<Sealed>)
      reads this
    {
      && |Records| == |before| + 1 && Records[..|before|] == before
      && Records[|before|].contentType == SSL3_RT_ALERT && Records[|before|].plain == sendAlert
    }

    /** ssl_send_alert: at most one closing alert, and it waits for what is being
        written. */
    method SendAlert(fatal: bool, desc: byte, addr: int) returns (ret: int)
      requires Valid()
      modifies this
      ensures Valid() && old(Sent) <= Sent
      ensures old(writeShutdown) != Open ==> ret == -1 && Records == old(Records) && writeShutdown == old(writeShutdown)
      ensures old(writeShutdown) != Open ==> sendAlert == old(sendAlert) && Alerts == old(Alerts)
      ensures old(writeShutdown) == Open ==> writeShutdown == (if !fatal && desc == 0 then CloseNotify else Failed)
      ensures old(writeShutdown) == Open ==>
                sendAlert == [if fatal then 2 else 1, desc] && Alerts == old(Alerts) + [if fatal then 2 else 1, desc]
      ensures old(writeShutdown) == Open && old(writeBuffer) != [] ==>
                ret == -1 && alertDispatch && Records == old(Records)
      ensures ret > 0 ==> ret == 1 && !alertDispatch && AlertAdded(old(Records))
      ensures ret > 0 ==> writeBuffer == [] && Sent == Wire(Records)
      ensures old(writeShutdown) == Open && ret <= 0 ==> alertDispatch
      ensures forall base, input :: old(Retrying(base, input)) ==> Retrying(base, input)
    {
      hide InOrder, Plain;
      if writeShutdown != Open {
        return -1;
      }
      writeShutdown := if !fatal && desc == 0 then CloseNotify else Failed;
      alertDispatch := true;
      sendAlert := [if fatal then 2 else 1, desc];
      Alerts := Plain(SSL3_RT_ALERT, Records) + sendAlert;
      assert Plain(SSL3_RT_ALERT, Records) + [] == Plain(SSL3_RT_ALERT, Records);
      if writeBuffer == [] {
        ret := DispatchAlert(addr);
        return;
      }
      return -1;
    }

    /** SSL_send_fatal_alert: called again and again, it sends its alert once. */
    method SendFatalAlert(desc: byte, addr: int) returns (ret: int)
      requires Valid()
      modifies this
      ensures Valid() && old(Sent) <= Sent
      ensures Alerts == if old(writeShutdown) == Open then old(Alerts) + [2, desc] else old(Alerts)
      ensures ret > 0 ==> sendAlert == [2, desc] && Plain(SSL3_RT_ALERT, Records) == Alerts && writeBuffer == []
      ensures ret > 0 ==> old(alertDispatch) || old(writeShutdown) == Open
      ensures old(alertDispatch) && old(sendAlert) != [2, desc] ==> ret == -1 && Records == old(Records)
    {
      hide InOrder, Plain;
      if alertDispatch {
        if sendAlert != [2, desc] {
          return -1;
        }
        ret := DispatchAlert(addr);
      } else {
        ret := SendAlert(true, desc, addr);
      }
      assert Plain(SSL3_RT_ALERT, Records) + [] == Plain(SSL3_RT_ALERT, Records);
    }
  }
}
