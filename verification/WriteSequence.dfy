/** The write side of the DTLS record layer (dtls_record.cc, dtls_method.cc):
    two write epochs and their 48-bit sequence numbers. */
module WriteSequence {
  import opened Bytes
  import opened Options
  import opened BigEndian
  import ReplayWindow

  // -- The counter -----------------------------------------------------------------------

  function Wrap(n: nat): nat {
    if n + 1 == TWO48 then 0 else n + 1
  }

  /** The bytes plus one, dropping the carry out. */
  function Increment(s: seq<byte>): (r: seq<byte>)
    ensures |r| == |s|
  {
    if s == [] then []
    else
      var n := |s| - 1;
      if s[n] == 255 then Increment(s[..n]) + [0] else s[..n] + [s[n] + 1]
  }

  lemma {:induction false} IncrementValue(s: seq<byte>)
    ensures Value(Increment(s)) == if Value(s) + 1 == Pow256(|s|) then 0 else Value(s) + 1
  {
    if s != [] {
      var n := |s| - 1;
      IncrementValue(s[..n]);
      assert Increment(s)[..n] == if s[n] == 255 then Increment(s[..n]) else s[..n];
    }
  }

  lemma Carry(head: seq<byte>, b: byte)
    ensures Increment(head + [b]) == if b == 255 then Increment(head) + [0] else head + [b + 1]
  {
    hide Value;
    var s := head + [b];
    assert s[..|s| - 1] == head && s[|s| - 1] == b;
  }

  /** The loop of ssl_record_sequence_update from position `i` down to `start`. */
  function CarryInto(s: seq<byte>, start: nat, i: nat): (r: seq<byte>)
    requires start <= i <= |s|
    ensures |r| == |s|
    decreases i
  {
    if i == start then s
    else if s[i - 1] == 255 then CarryInto(s[i - 1 := 0], start, i - 1)
    else s[i - 1 := s[i - 1] + 1]
  }

  /** It increments `s[start..i]` and leaves the rest alone. */
  lemma {:induction false} CarryIntoIncrements(s: seq<byte>, start: nat, i: nat)
    requires start <= i <= |s|
    ensures CarryInto(s, start, i)[..start] == s[..start]
    ensures CarryInto(s, start, i)[start..i] == Increment(s[start..i])
    ensures CarryInto(s, start, i)[i..] == s[i..]
    decreases i
  {
    if i > start {
      var b, head := s[i - 1], s[start..i - 1];
      assert s[start..i] == head + [b];
      Carry(head, b);
      hide Increment;
      var r := CarryInto(s, start, i);
      if b == 255 {
        var t := s[i - 1 := 0];
        assert t[..start] == s[..start] && t[start..i - 1] == head && t[i - 1..] == [0] + s[i..];
        CarryIntoIncrements(t, start, i - 1);
        assert r[start..i] == r[start..i - 1] + [r[i - 1..][0]] && r[i..] == r[i - 1..][1..];
      } else {
        assert r == s[i - 1 := b + 1];
      }
    }
  }

  /** Every byte of `s[start..i]` is 255: the carry leaves the number. */
  predicate CarriesOut(s: seq<byte>, start: nat, i: nat)
    requires start <= i <= |s|
  {
    forall k :: start <= k < i ==> s[k] == 255
  }

  lemma {:induction false} CarriesOutValue(s: seq<byte>)
    ensures CarriesOut(s, 0, |s|) <==> Value(s) + 1 == Pow256(|s|)
  {
    if s != [] {
      CarriesOutValue(s[..|s| - 1]);
    }
  }

  /** ssl_record_sequence_update on the bytes of `s` from `start` on. */
  method SequenceUpdate(s: array<byte>, start: nat) returns (ok: bool)
    requires start <= s.Length
    modifies s
    ensures s[..] == CarryInto(old(s[..]), start, s.Length)
    ensures ok <==> !CarriesOut(old(s[..]), start, s.Length)
  {
    var i := s.Length;
    while i > start
      invariant start <= i <= s.Length
      invariant forall k :: start <= k < i ==> s[k] == old(s[k])
      invariant CarriesOut(old(s[..]), start, s.Length) <==> CarriesOut(s[..], start, i)
      invariant CarryInto(s[..], start, i) == CarryInto(old(s[..]), start, s.Length)
    {
      i := i - 1;
      ghost var before := s[..];
      s[i] := if s[i] == 255 then 0 else s[i] + 1;
      assert s[..] == before[i := s[i]];
      if s[i] != 0 {
        return true;
      }
    }
    return false;
  }

  /** The six bytes after the epoch are the old ones plus one; false when they
      wrap to zero. */
  method NextNumber(s: array<byte>) returns (ok: bool)
    requires s.Length == 8
    modifies s
    ensures s[..2] == old(s[..2])
    ensures Value(s[2..]) == Wrap(old(Value(s[2..])))
    ensures ok <==> old(Value(s[2..])) + 1 < TWO48
  {
    ghost var was := s[..];
    CarryIntoIncrements(was, 2, 8);
    IncrementValue(was[2..]);
    CarriesOutValue(was[2..]);
    Pow256Values();
    ok := SequenceUpdate(s, 2);
    assert was[2..8] == was[2..] && s[..][2..8] == s[2..];
    assert s[2..] == Increment(was[2..]);
    assert CarriesOut(was, 2, 8) <==> CarriesOut(was[2..], 0, 6);
  }

  // -- Sealing -----------------------------------------------------------------------------

  /** The write epoch, its next sequence number, and that of the epoch before. */
  datatype Numbers = Numbers(epoch: nat, next: nat, last: nat)

  /** A sequence number used with the key of an epoch. */
  datatype Use = Use(epoch: nat, number: nat)

  /** A counter after `n` uses. */
  function Turned(n: nat): nat {
    n % TWO48
  }

  function UseOf(w: Numbers, previous: bool): Use
    requires previous ==> w.epoch >= 1
  {
    if previous then Use(w.epoch - 1, w.last) else Use(w.epoch, w.next)
  }

  function AfterSeal(w: Numbers, previous: bool): Numbers {
    if previous then w.(last := Wrap(w.last)) else w.(next := Wrap(w.next))
  }

  function AfterChange(w: Numbers): Numbers {
    Numbers(w.epoch + 1, 0, w.next)
  }

  /** A DTLS record on the wire. */
  function Wire(contentType: byte, version: nat, use: Use, ciphertext: seq<byte>): seq<byte> {
    [contentType] + Encode(version, 2) + Encode(use.epoch, 2) + Encode(use.number, 6) +
    Encode(|ciphertext|, 2) + ciphertext
  }

  class Writer {
    var wEpoch: nat
    var recordVersion: nat
    var writeSequence: array<byte>
    var lastWriteSequence: array<byte>

    ghost predicate Valid()
      reads this, writeSequence, lastWriteSequence
    {
      && writeSequence.Length == 8 && lastWriteSequence.Length == 8 && writeSequence != lastWriteSequence
      && wEpoch < TWO16 && recordVersion < TWO16
    }

    ghost function State(): Numbers
      reads this, writeSequence, lastWriteSequence
      requires Valid()
    {
      Numbers(wEpoch, Value(writeSequence[2..]), Value(lastWriteSequence[2..]))
    }

    constructor (recordVersion: nat)
      requires recordVersion < TWO16
      ensures Valid() && State() == Numbers(0, 0, 0) && fresh(writeSequence) && fresh(lastWriteSequence)
    {
      wEpoch := 0;
      this.recordVersion := recordVersion;
      writeSequence := new byte[8](_ => 0);
      lastWriteSequence := new byte[8](_ => 0);
      new;
      ZeroValue(writeSequence[2..]);
      ZeroValue(lastWriteSequence[2..]);
    }

    /** dtls_seal_record; `ciphertext` is what the cipher makes of the plaintext,
        if it succeeds.  A number is used up as soon as the cipher has run, even
        when the record is not sent because the counter wrapped. */
    method SealRecord(contentType: byte, maxOut: nat, ciphertext: Option<seq<byte>>, previous: bool)
      returns (out: Option<seq<byte>>)
      requires Valid() && (previous ==> wEpoch >= 1)
      modifies writeSequence, lastWriteSequence
      ensures Valid()
      ensures State() == if maxOut >= ReplayWindow.DTLS1_RT_HEADER_LENGTH && ciphertext.Some?
                         then AfterSeal(old(State()), previous)
                         else old(State())
      ensures out.Some? <==>
              && maxOut >= ReplayWindow.DTLS1_RT_HEADER_LENGTH && ciphertext.Some? && |ciphertext.value| < TWO16
              && UseOf(old(State()), previous).number + 1 < TWO48
      ensures out.Some? ==>
                out.value == Wire(contentType, recordVersion, UseOf(old(State()), previous), ciphertext.value)
    {
      var epoch := wEpoch;
      var s := writeSequence;
      if previous {
        epoch := wEpoch - 1;
        s := lastWriteSequence;
      }
      if maxOut < ReplayWindow.DTLS1_RT_HEADER_LENGTH {
        return None;
      }
      var header := [contentType] + Encode(recordVersion, 2) + Encode(epoch, 2) + s[2..];
      if ciphertext.None? {
        return None;
      }
      EncodeOfValue(s[2..]);
      var ok := NextNumber(s);
      if !ok {
        return None;
      }
      if |ciphertext.value| >= TWO16 {
        return None;
      }
      return Some(header + Encode(|ciphertext.value|, 2) + ciphertext.value);
    }

    /** dtls1_set_write_state; w_epoch has 16 bits. */
    method SetWriteState(recordVersion: nat)
      requires Valid() && wEpoch + 1 < TWO16 && recordVersion < TWO16
      modifies this, lastWriteSequence, writeSequence
      ensures Valid() && State() == AfterChange(old(State())) && this.recordVersion == recordVersion
      ensures writeSequence == old(writeSequence) && lastWriteSequence == old(lastWriteSequence)
    {
      wEpoch := wEpoch + 1;
      this.recordVersion := recordVersion;
      forall i | 0 <= i < 8 {
        lastWriteSequence[i] := writeSequence[i];
      }
      assert lastWriteSequence[2..] == old(writeSequence[2..]);
      forall i | 0 <= i < 8 {
        writeSequence[i] := 0;
      }
      assert lastWriteSequence[2..] == old(writeSequence[2..]);
      ZeroValue(writeSequence[2..]);
    }
  }

  lemma {:induction false} ZeroValue(s: seq<byte>)
    requires forall i :: 0 <= i < |s| ==> s[i] == 0
    ensures Value(s) == 0
  {
    if s != [] {
      ZeroValue(s[..|s| - 1]);
    }
  }

  /** What is sealed is what the other side reads: the header names the type, the
      version and the number, and the body is the ciphertext. */
  lemma SealedParses(contentType: byte, version: nat, use: Use, ciphertext: seq<byte>, more: seq<byte>)
    requires version < TWO16 && use.epoch < TWO16 && use.number < TWO48
    requires |ciphertext| <= ReplayWindow.SSL3_RT_MAX_ENCRYPTED_LENGTH
    ensures var r := ReplayWindow.ParseRecord(Wire(contentType, version, use, ciphertext) + more);
            && r.Some? && r.value.contentType == contentType && r.value.version == version
            && r.value.body == ciphertext && r.value.rest == more
            && Value(r.value.sequence) == TWO48 * use.epoch + use.number
            && ReplayWindow.EpochOf(r.value.sequence) == use.epoch
  {
    var v, e, n, l := Encode(version, 2), Encode(use.epoch, 2), Encode(use.number, 6), Encode(|ciphertext|, 2);
    var w := Wire(contentType, version, use, ciphertext) + more;
    assert w[1..3] == v && w[3..11] == e + n && w[11..13] == l;
    assert w[13..13 + |ciphertext|] == ciphertext && w[13 + |ciphertext|..] == more;
    Pow256Values();
    ValueOfEncode(version, 2);
    ValueOfEncode(use.epoch, 2);
    ValueOfEncode(use.number, 6);
    ValueOfEncode(|ciphertext|, 2);
    ValueConcat(e, n);
    ReplayWindow.ShiftedBy6(use.epoch);
    ReplayWindow.EpochIsHigh(e + n);
  }

  /** The window: a number is let through unless it has been accepted before or one of 64
      or more above it has. */
  ghost predicate New(accepted: set<nat>, number: nat) {
    number !in accepted && forall a :: a in accepted ==> a < number + 64
  }

  /** A record that was sealed is accepted exactly if its version is the reader's, or of the
      family 0xFE before there is a cipher, its epoch is the reader's, its number is new and
      the cipher opens it to no more than 2^14 bytes; and it takes its own bytes from the
      packet, or the whole packet when the version is wrong. */
  lemma SealedAccepted(setup: ReplayWindow.Setup, epoch: nat, accepted: set<nat>, contentType: byte, version: nat,
                       use: Use, ciphertext: seq<byte>, more: seq<byte>, plain: Option<seq<byte>>)
    requires version < TWO16 && use.epoch < TWO16 && use.number < TWO48 && |ciphertext| <= 16704
    ensures var input := Wire(contentType, version, use, ciphertext) + more;
            var versionOk := if setup.nullCipher then 0xFE00 <= version <= 0xFEFF else version == setup.recordVersion;
            && (ReplayWindow.Accepts(setup, epoch, accepted, input, plain) <==>
                  && !setup.closed && versionOk && use.epoch == epoch && New(accepted, TWO48 * epoch + use.number)
                  && plain.Some? && |plain.value| <= 16384)
            && ReplayWindow.Consumed(setup, input) ==
                 if setup.closed then 0 else if versionOk then 13 + |ciphertext| else |input|
  {
    hide Wire, ReplayWindow.ParseRecord, Value;
    SealedParses(contentType, version, use, ciphertext, more);
    WireLength(contentType, version, use, ciphertext);
  }

  lemma WireLength(contentType: byte, version: nat, use: Use, ciphertext: seq<byte>)
    ensures |Wire(contentType, version, use, ciphertext)| == 13 + |ciphertext|
  {
  }

  /** What is cut short, or announces more than 2^14 + 320 bytes, is dropped with the packet. */
  lemma MalformedDropped(setup: ReplayWindow.Setup, epoch: nat, accepted: set<nat>, input: seq<byte>,
                         plain: Option<seq<byte>>)
    requires |input| < 13 || Value(input[11..13]) > 16704 || |input| < 13 + Value(input[11..13])
    ensures !ReplayWindow.Accepts(setup, epoch, accepted, input, plain)
    ensures !setup.closed ==> ReplayWindow.Consumed(setup, input) == |input|
  {
  }

  // -- Whole runs -----------------------------------------------------------------------------

  /** Sealing in the current or the previous epoch, and changing epochs. */
  datatype Op = Seal(previous: bool) | Change

  /** `uses` are the numbers used, in order; `wrapped` the epochs whose counter
      reported wraparound; `late` whether one of those sealed again. */
  datatype Run = Run(w: Numbers, uses: seq<Use>, wrapped: set<nat>, late: bool)

  function Apply(r: Run, op: Op): Option<Run> {
    match op
    case Change => Some(r.(w := AfterChange(r.w)))
    case Seal(previous) =>
      if previous && r.w.epoch == 0 then None
      else
        var use := UseOf(r.w, previous);
        Some(Run(AfterSeal(r.w, previous), r.uses + [use],
                 if use.number + 1 == TWO48 then r.wrapped + {use.epoch} else r.wrapped,
                 r.late || use.epoch in r.wrapped))
  }

  function After(ops: seq<Op>): Option<Run> {
    if ops == [] then Some(Run(Numbers(0, 0, 0), [], {}, false))
    else match After(ops[..|ops| - 1]) case None => None case Some(r) => Apply(r, ops[|ops| - 1])
  }

  /** How often the key of `epoch` has been used. */
  function Count(uses: seq<Use>, epoch: nat): nat {
    if uses == [] then 0
    else Count(uses[..|uses| - 1], epoch) + if uses[|uses| - 1].epoch == epoch then 1 else 0
  }

  ghost predicate Distinct(uses: seq<Use>) {
    forall i, j :: 0 <= i < j < |uses| ==> uses[i] != uses[j]
  }

  /** Each epoch numbers its uses 0, 1, 2, ... modulo 2^48. */
  ghost predicate Numbered(uses: seq<Use>) {
    forall k :: 0 <= k < |uses| ==> uses[k].number == Turned(Count(uses[..k], uses[k].epoch))
  }

  ghost predicate Tracks(r: Run) {
    && Numbered(r.uses)
    && r.w.next == Turned(Count(r.uses, r.w.epoch))
    && (r.w.epoch > 0 ==> r.w.last == Turned(Count(r.uses, r.w.epoch - 1)))
    && (forall e :: e > r.w.epoch ==> Count(r.uses, e) == 0)
    && (forall e: nat :: e in r.wrapped <==> Count(r.uses, e) >= TWO48)
    && (r.late <==> exists e: nat :: Count(r.uses, e) > TWO48)
  }

  lemma NumberedAppend(uses: seq<Use>, use: Use)
    requires Numbered(uses) && use.number == Turned(Count(uses, use.epoch))
    ensures Numbered(uses + [use])
    ensures forall e :: Count(uses + [use], e) == Count(uses, e) + if e == use.epoch then 1 else 0
  {
    var next := uses + [use];
    assert next[..|uses|] == uses;
    forall k | 0 <= k < |next|
      ensures next[k].number == Turned(Count(next[..k], next[k].epoch))
    {
      if k < |uses| {
        assert next[..k] == uses[..k];
      }
    }
  }

  lemma TurnedOnce(n: nat)
    ensures Wrap(Turned(n)) == Turned(n + 1)
    ensures Turned(n) + 1 == TWO48 ==> n + 1 >= TWO48
    ensures n < TWO48 <= n + 1 ==> Turned(n) + 1 == TWO48
  {
  }

  lemma {:induction false} RunTracks(ops: seq<Op>)
    requires After(ops).Some?
    ensures Tracks(After(ops).value)
  {
    if ops != [] {
      var r, op := After(ops[..|ops| - 1]).value, ops[|ops| - 1];
      RunTracks(ops[..|ops| - 1]);
      hide Count, Turned, Numbered;
      if op.Seal? {
        SealTracks(r, op.previous);
      }
    }
  }

  lemma SealTracks(r: Run, previous: bool)
    requires Tracks(r) && (previous ==> r.w.epoch >= 1)
    ensures Tracks(Apply(r, Seal(previous)).value)
  {
    hide Turned, Count, Wrap, Numbered;
    var use, r' := UseOf(r.w, previous), Apply(r, Seal(previous)).value;
    var n := Count(r.uses, use.epoch);
    NumberedAppend(r.uses, use);
    TurnedOnce(n);
    if r.late {
      var e: nat :| Count(r.uses, e) > TWO48;
      assert Count(r'.uses, e) > TWO48;
    }
    if use.epoch in r.wrapped {
      assert Count(r'.uses, use.epoch) > TWO48;
    }
  }

  lemma {:induction false} CountGrows(uses: seq<Use>, e: nat, j: nat, k: nat)
    requires j <= k <= |uses|
    ensures Count(uses[..j], e) <= Count(uses[..k], e)
    ensures j < k && uses[j].epoch == e ==> Count(uses[..j], e) < Count(uses[..k], e)
    decreases k
  {
    if j < k {
      assert uses[..k][..k - 1] == uses[..k - 1];
      CountGrows(uses, e, j, k - 1);
    }
  }

  /** The use that was number `n` of its epoch. */
  lemma {:induction false} Nth(uses: seq<Use>, e: nat, n: nat) returns (k: nat)
    requires n < Count(uses, e)
    ensures k < |uses| && uses[k].epoch == e && Count(uses[..k], e) == n
    decreases |uses|
  {
    var m := |uses| - 1;
    if n < Count(uses[..m], e) {
      k := Nth(uses[..m], e, n);
      assert uses[..m][..k] == uses[..k];
    } else {
      k := m;
    }
  }

  /** Uses of an epoch that never wrapped differ ... */
  lemma OnceEach(uses: seq<Use>, j: nat, k: nat)
    requires Numbered(uses) && j < k < |uses| && Count(uses, uses[j].epoch) <= TWO48
    ensures uses[j] != uses[k]
  {
    var e := uses[j].epoch;
    CountGrows(uses, e, j, k);
    CountGrows(uses, e, k, |uses|);
    assert uses[..|uses|] == uses;
    if uses[k].epoch == e {
      SmallTurn(Count(uses[..j], e));
      SmallTurn(Count(uses[..k], e));
    }
  }

  lemma SmallTurn(n: nat)
    ensures n < TWO48 ==> Turned(n) == n
    ensures n == TWO48 ==> Turned(n) == 0
  {
  }

  /** ... and an epoch used more than 2^48 times repeats its first number. */
  lemma Repeats(uses: seq<Use>, e: nat)
    requires Numbered(uses) && Count(uses, e) > TWO48
    ensures !Distinct(uses)
  {
    hide Turned;
    var j := Nth(uses, e, 0);
    var k := Nth(uses, e, TWO48);
    SmallTurn(0);
    SmallTurn(TWO48);
    assert uses[j] == uses[k] && j != k;
  }

  /** No two records carry the same epoch and number, retransmissions included,
      if and only if no epoch seals again after its counter reported wraparound. */
  lemma NeverReused(ops: seq<Op>)
    requires After(ops).Some?
    ensures Distinct(After(ops).value.uses) <==> !After(ops).value.late
  {
    var r := After(ops).value;
    RunTracks(ops);
    hide Count, Numbered, After;
    if r.late {
      var e: nat :| Count(r.uses, e) > TWO48;
      Repeats(r.uses, e);
    } else {
      forall j, k | 0 <= j < k < |r.uses| ensures r.uses[j] != r.uses[k] {
        assert Count(r.uses, r.uses[j].epoch) <= TWO48;
        OnceEach(r.uses, j, k);
      }
    }
  }

  /** Sealing `n` records in the first epoch. */
  function Seals(n: nat): seq<Op> {
    seq(n, _ => Seal(false))
  }

  lemma {:induction false} SealsCount(n: nat)
    ensures After(Seals(n)).Some? && After(Seals(n)).value.w.epoch == 0
    ensures Count(After(Seals(n)).value.uses, 0) == n
  {
    if n > 0 {
      SealsCount(n - 1);
      assert Seals(n)[..n - 1] == Seals(n - 1);
      var r := After(Seals(n - 1)).value;
      assert After(Seals(n)) == Apply(r, Seal(false));
      assert (r.uses + [UseOf(r.w, false)])[..|r.uses|] == r.uses;
    }
  }

  /** A run that reuses a number: 2^48 seals are distinct, and one more is not. */
  lemma OneSealTooMany()
    ensures After(Seals(TWO48)).Some? && Distinct(After(Seals(TWO48)).value.uses)
    ensures After(Seals(TWO48 + 1)).Some? && After(Seals(TWO48 + 1)).value.late
    ensures !Distinct(After(Seals(TWO48 + 1)).value.uses)
  {
    hide After, Seals, Distinct;
    SealsCount(TWO48);
    SealsCount(TWO48 + 1);
    LateIff(TWO48);
    LateIff(TWO48 + 1);
    NeverReused(Seals(TWO48));
    NeverReused(Seals(TWO48 + 1));
  }

  lemma LateIff(n: nat)
    ensures After(Seals(n)).Some? && (After(Seals(n)).value.late <==> n > TWO48)
  {
    SealsCount(n);
    RunTracks(Seals(n));
    hide After, Seals, Count, Numbered;
    var r := After(Seals(n)).value;
    assert forall e: nat :: e != 0 ==> Count(r.uses, e) == 0;
  }
}
