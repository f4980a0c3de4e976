/** The read side of the DTLS record layer (dtls_record.cc): the replay window
    of section 4.1.2.6 of RFC 6347, and which records it lets through. */
module ReplayWindow {
  import opened Bytes
  import opened Options
  import opened BigEndian
  import Bits

  /** kWindowSize. */
  const WINDOW := 64

  /** A record number to be dropped: already accepted, or 64 or more below the
      largest accepted. */
  ghost predicate Stale(accepted: set<nat>, s: nat) {
    s in accepted || exists a :: a in accepted && s + WINDOW <= a
  }

  /** to_u64_be. */
  method ToU64BE(input: seq<byte>) returns (ret: nat)
    requires |input| == 8
    ensures ret == Value(input) < TWO64
  {
    ret := 0;
    for i := 0 to 8
      invariant ret == Value(input[..i])
    {
      assert input[..i + 1][..i] == input[..i];
      ret := 256 * ret + input[i];
    }
    assert input[..8] == input;
    Pow256Values();
  }

  class Bitmap {
    /** Bit `i` is for record number `maxSeqNum - i`. */
    var mask: nat
    var maxSeqNum: nat
    ghost var Accepted: set<nat>

    ghost predicate Valid()
      reads this
    {
      && mask < Bits.One(WINDOW)
      && (forall a :: a in Accepted ==> a <= maxSeqNum)
      && (Accepted != {} ==> maxSeqNum in Accepted)
      && (Accepted == {} ==> maxSeqNum == 0)
      && forall i: nat :: i < WINDOW ==> (Bits.Bit(mask, i) <==> i <= maxSeqNum && maxSeqNum - i in Accepted)
    }

    constructor ()
      ensures Valid() && Accepted == {}
    {
      mask, maxSeqNum, Accepted := 0, 0, {};
      forall i: nat | i < WINDOW ensures !Bits.Bit(0, i) {
        Bits.ZeroBit(i);
      }
    }

    /** The memset of dtls1_set_read_state. */
    method Clear()
      modifies this
      ensures Valid() && Accepted == {}
    {
      mask, maxSeqNum, Accepted := 0, 0, {};
      forall i: nat | i < WINDOW ensures !Bits.Bit(0, i) {
        Bits.ZeroBit(i);
      }
    }

    /** dtls1_bitmap_should_discard. */
    method ShouldDiscard(seqNum: seq<byte>) returns (discard: bool)
      requires Valid() && |seqNum| == 8
      ensures discard <==> Stale(Accepted, Value(seqNum))
    {
      var n := ToU64BE(seqNum);
      if n > maxSeqNum {
        return false;
      }
      var idx := maxSeqNum - n;
      Bits.AndOne(mask, idx);
      discard := idx >= WINDOW || Bits.And(mask, Bits.One(idx)) != 0;
      if idx >= WINDOW {
        assert maxSeqNum in Accepted;
      }
    }

    /** dtls1_bitmap_record. */
    method Record(seqNum: seq<byte>)
      requires Valid() && |seqNum| == 8
      modifies this
      ensures Valid() && Accepted == old(Accepted) + {Value(seqNum)}
    {
      hide Bits.Bit, Bits.One, Bits.Or, Value;
      var n := ToU64BE(seqNum);
      Slide(n);
      var idx := maxSeqNum - n;
      Accepted := Accepted + {n};
      if idx < WINDOW {
        ghost var before := mask;
        Bits.OneBound(idx, WINDOW);
        Bits.OrBound(mask, Bits.One(idx), WINDOW);
        mask := Bits.Or(mask, Bits.One(idx));
        forall i: nat | i < WINDOW
          ensures Bits.Bit(mask, i) <==> Bits.Bit(before, i) || i == idx
        {
          Bits.OrBit(before, Bits.One(idx), i);
          Bits.OneBit(idx, i);
        }
      }
    }

    /** "Shift the window if necessary": afterwards `n` is within the largest. */
    method Slide(n: nat)
      requires Valid()
      modifies `mask, `maxSeqNum
      ensures maxSeqNum == if n > old(maxSeqNum) then n else old(maxSeqNum)
      ensures mask < Bits.One(WINDOW)
      ensures forall i: nat :: i < WINDOW ==> (Bits.Bit(mask, i) <==> i <= maxSeqNum && maxSeqNum - i in Accepted)
    {
      if n > maxSeqNum {
        var shift := n - maxSeqNum;
        ghost var before := mask;
        forall i: nat | i < WINDOW
          ensures Bits.Bit(Bits.Low(Bits.Shl(before, shift), WINDOW), i) <==> shift <= i && Bits.Bit(before, i - shift)
          ensures !Bits.Bit(0, i)
        {
          Bits.LowBits(Bits.Shl(before, shift), WINDOW, i);
          Bits.ShlBit(before, shift, i);
          Bits.ZeroBit(i);
        }
        if shift >= WINDOW {
          mask := 0;
        } else {
          mask := Bits.Low(Bits.Shl(mask, shift), WINDOW);
        }
        maxSeqNum := n;
      }
    }
  }

  // -- Records ------------------------------------------------------------------------------

  const DTLS1_RT_HEADER_LENGTH := 13
  const SSL3_RT_MAX_ENCRYPTED_LENGTH := 16704
  const SSL3_RT_MAX_PLAIN_LENGTH := 16384
  const SSL3_RT_ALERT := 21
  const DTLS1_VERSION_MAJOR := 0xFE

  datatype Record = Record(contentType: byte, version: nat, sequence: seq<byte>, body: seq<byte>, rest: seq<byte>)

  /** The header and the body it announces. */
  function ParseRecord(input: seq<byte>): (r: Option<Record>)
    ensures r.Some? ==> |r.value.sequence| == 8 && |r.value.rest| < |input|
  {
    if |input| < DTLS1_RT_HEADER_LENGTH then None
    else
      var length := Value(input[11..13]);
      if |input| < DTLS1_RT_HEADER_LENGTH + length || length > SSL3_RT_MAX_ENCRYPTED_LENGTH then None
      else Some(Record(input[0], Value(input[1..3]), input[3..11], input[13..13 + length], input[13 + length..]))
  }

  function EpochOf(sequence: seq<byte>): nat
    requires |sequence| == 8
  {
    256 * (sequence[0] as int) + sequence[1] as int
  }

  datatype Opened =
    | CloseNotify
    | Partial
    | Discard
    | RecordOverflow
    | Alert(out: seq<byte>)
    | Success(contentType: byte, out: seq<byte>)

  /** What the reader is set up with: the cipher, its record version, and
      whether close_notify arrived. */
  datatype Setup = Setup(nullCipher: bool, recordVersion: nat, closed: bool)

  predicate VersionOk(setup: Setup, version: nat) {
    if setup.nullCipher then version / 256 == DTLS1_VERSION_MAJOR else version == setup.recordVersion
  }

  /** Whether the record in `input` gets past the window of `epoch`; `plain` is
      the plaintext when the cipher accepts it. */
  ghost predicate Accepts(setup: Setup, epoch: nat, accepted: set<nat>, input: seq<byte>, plain: Option<seq<byte>>) {
    && !setup.closed
    && ParseRecord(input).Some? && VersionOk(setup, ParseRecord(input).value.version)
    && EpochOf(ParseRecord(input).value.sequence) == epoch
    && !Stale(accepted, Value(ParseRecord(input).value.sequence))
    && plain.Some? && |plain.value| <= SSL3_RT_MAX_PLAIN_LENGTH
  }

  /** The number of bytes a record takes from `input`. */
  function Consumed(setup: Setup, input: seq<byte>): nat {
    if setup.closed then 0
    else if ParseRecord(input).None? || !VersionOk(setup, ParseRecord(input).value.version) then |input|
    else |input| - |ParseRecord(input).value.rest|
  }

  class Reader {
    var setup: Setup
    var rEpoch: nat
    const bitmap: Bitmap

    ghost predicate Valid()
      reads this, bitmap
    {
      bitmap.Valid()
    }

    constructor (setup: Setup)
      ensures Valid() && rEpoch == 0 && bitmap.Accepted == {} && fresh(bitmap) && this.setup == setup
    {
      this.setup := setup;
      rEpoch := 0;
      bitmap := new Bitmap();
    }

    /** dtls_open_record, given what the cipher makes of the record.  Only a
        record that opens changes the window. */
    method OpenRecord(input: seq<byte>, plain: Option<seq<byte>>) returns (r: Opened, consumed: nat)
      requires Valid()
      modifies bitmap
      ensures Valid()
      ensures consumed == Consumed(setup, input)
      ensures (r.Success? || r.Alert?) <==> Accepts(setup, rEpoch, old(bitmap.Accepted), input, plain)
      ensures bitmap.Accepted == if r.Success? || r.Alert?
                                 then old(bitmap.Accepted) + {Value(ParseRecord(input).value.sequence)}
                                 else old(bitmap.Accepted)
      ensures r.Success? ==> Some(r.out) == plain && SSL3_RT_ALERT != r.contentType
      ensures r.Success? ==> r.contentType == ParseRecord(input).value.contentType
      ensures r.Alert? ==> Some(r.out) == plain && ParseRecord(input).value.contentType == SSL3_RT_ALERT
      ensures r.CloseNotify? <==> setup.closed
      ensures r.Partial? <==> !setup.closed && input == []
    {
      if setup.closed {
        return CloseNotify, 0;
      }
      if input == [] {
        return Partial, 0;
      }
      var parsed := ParseRecord(input);
      if parsed.None? {
        return Discard, |input|;
      }
      var record := parsed.value;
      var versionOk := if setup.nullCipher then record.version / 256 == DTLS1_VERSION_MAJOR
                       else record.version == setup.recordVersion;
      if !versionOk {
        return Discard, |input|;
      }
      consumed := |input| - |record.rest|;
      var replay := bitmap.ShouldDiscard(record.sequence);
      if EpochOf(record.sequence) != rEpoch || replay {
        return Discard, consumed;
      }
      if plain.None? {
        return Discard, consumed;
      }
      if |plain.value| > SSL3_RT_MAX_PLAIN_LENGTH {
        return RecordOverflow, consumed;
      }
      bitmap.Record(record.sequence);
      if record.contentType == SSL3_RT_ALERT {
        return Alert(plain.value), consumed;
      }
      return Success(record.contentType, plain.value), consumed;
    }

    /** The record layer's part of dtls1_set_read_state; r_epoch has 16 bits. */
    method SetReadState(setup: Setup)
      requires Valid() && rEpoch + 1 < TWO16
      modifies this, bitmap
      ensures Valid() && rEpoch == old(rEpoch) + 1 && bitmap.Accepted == {} && this.setup == setup
    {
      rEpoch := rEpoch + 1;
      bitmap.Clear();
      this.setup := setup;
    }
  }

  // -- Whole runs ------------------------------------------------------------------------------

  datatype Event = Packet(input: seq<byte>, plain: Option<seq<byte>>) | NewEpoch(setup: Setup)

  /** `numbers` lists the 64-bit record numbers accepted so far, in order. */
  datatype Run = Run(setup: Setup, epoch: nat, accepted: set<nat>, numbers: seq<nat>)

  ghost function Step(r: Run, e: Event): Run {
    match e
    case NewEpoch(setup) => Run(setup, r.epoch + 1, {}, r.numbers)
    case Packet(input, plain) =>
      if !Accepts(r.setup, r.epoch, r.accepted, input, plain) then r
      else
        var n := Value(ParseRecord(input).value.sequence);
        r.(accepted := r.accepted + {n}, numbers := r.numbers + [n])
  }

  ghost function After(setup: Setup, events: seq<Event>): Run {
    if events == [] then Run(setup, 0, {}, [])
    else Step(After(setup, events[..|events| - 1]), events[|events| - 1])
  }

  /** The epoch is the top 16 bits of the record number. */
  lemma EpochIsHigh(sequence: seq<byte>)
    requires |sequence| == 8
    ensures Value(sequence) / TWO48 == EpochOf(sequence)
  {
    var hi, lo := sequence[..2], sequence[2..];
    assert sequence == hi + lo;
    ValueConcat(hi, lo);
    assert hi[..1] == [sequence[0]] && [sequence[0]][..0] == [];
    assert Value(hi) == EpochOf(sequence);
    ShiftedBy6(Value(hi));
    Pow256Values();
  }

  lemma ShiftedBy6(v: nat)
    ensures Shifted(v, 6) == TWO48 * v
  {
    assert Shifted(v, 2) == 256 * Shifted(v, 1) == 65536 * v;
    assert Shifted(v, 4) == 256 * Shifted(v, 3) == 65536 * Shifted(v, 2);
    assert Shifted(v, 6) == 256 * Shifted(v, 5) == 65536 * Shifted(v, 4);
  }

  ghost predicate Distinct(s: seq<nat>) {
    forall i, j :: 0 <= i < j < |s| ==> s[i] != s[j]
  }

  ghost predicate Consistent(r: Run) {
    && Distinct(r.numbers)
    && (forall i :: 0 <= i < |r.numbers| ==> r.numbers[i] / TWO48 <= r.epoch)
    && forall i :: 0 <= i < |r.numbers| && r.numbers[i] / TWO48 == r.epoch ==> r.numbers[i] in r.accepted
  }

  /** Over a whole run, across epochs, no record number is accepted twice. */
  lemma {:induction false} NoReplay(setup: Setup, events: seq<Event>)
    ensures Consistent(After(setup, events))
  {
    if events != [] {
      var r, e := After(setup, events[..|events| - 1]), events[|events| - 1];
      NoReplay(setup, events[..|events| - 1]);
      if e.Packet? && Accepts(r.setup, r.epoch, r.accepted, e.input, e.plain) {
        EpochIsHigh(ParseRecord(e.input).value.sequence);
      }
    }
  }
}
