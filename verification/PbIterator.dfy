/** The cyclic field iterator of pb_common.c and the required-field bitmap of
    pb_decode_noinit. */
module PbIterator {
  import opened Bits
  import opened PbModel
  import opened PbWire
  import opened PbRoundTrip
  import Options

  // -- The struct the macros lay out -------------------------------------------------

  /** pb_membersize of a whole member: an array counts all its entries. */
  function MemberSize(f: Field): nat {
    if f.htype.Repeated? then f.place.dataSize * f.htype.maxCount else f.place.dataSize
  }

  /** PB_DATAOFFSET_UNION: `g` shares the place of the oneof member before it. */
  predicate InUnion(f: Field, g: Field, sizeMax: nat) {
    f.htype.Oneof? && g.htype.Oneof? && g.place.dataOffset == sizeMax
  }

  /** `at[i]` is the true offset of member `i`: the first row records it
      (PB_DATAOFFSET_FIRST), the others the gap after the member before
      (PB_DATAOFFSET_OTHER), or that they are in the same union. */
  predicate LaidOut(fields: seq<Field>, at: seq<nat>, sizeMax: nat) {
    && |at| == |fields|
    && (fields != [] ==> fields[0].place.dataOffset == at[0])
    && forall i :: 1 <= i < |fields| ==>
         if InUnion(fields[i - 1], fields[i], sizeMax)
         then at[i] == at[i - 1] && fields[i].place.sizeOffset == fields[i - 1].place.sizeOffset
         else at[i] == at[i - 1] + MemberSize(fields[i - 1]) + fields[i].place.dataOffset
  }

  // -- The iterator --------------------------------------------------------------------

  /** The row `k` steps after `start` in a table of `n` rows. */
  ghost function Around(start: nat, k: nat, n: nat): (r: nat)
    requires start < n && k <= n
    ensures r < n
  {
    if start + k < n then start + k else start + k - n
  }

  class FieldIter {
    const d: Descriptor
    const sizeMax: nat
    var pos: nat
    var requiredFieldIndex: nat
    var pData: nat
    var pSize: int

    /** The table ends with a row of tag 0, at index |d.fields|; `pos` is there
        only in an empty table. */
    ghost predicate Valid()
      reads this
    {
      && (if d.fields == [] then pos == 0 else pos < |d.fields|)
      && requiredFieldIndex == RequiredBefore(d, pos)
    }

    /** The data and size pointers are at the member's true place. */
    ghost predicate InPlace(at: seq<nat>)
      reads this
      requires Valid()
    {
      d.fields != [] && |at| == |d.fields| ==>
        pData == at[pos] && pSize == at[pos] + d.fields[pos].place.sizeOffset
    }

    /** pb_field_iter_begin; the terminator row has offsets 0. */
    constructor (d: Descriptor, sizeMax: nat)
      ensures Valid() && this.d == d && this.sizeMax == sizeMax && pos == 0
      ensures forall at :: LaidOut(d.fields, at, sizeMax) ==> InPlace(at)
    {
      this.d := d;
      this.sizeMax := sizeMax;
      pos := 0;
      requiredFieldIndex := 0;
      pData := if d.fields == [] then 0 else d.fields[0].place.dataOffset;
      pSize := if d.fields == [] then 0 else d.fields[0].place.dataOffset + d.fields[0].place.sizeOffset;
    }

    method Begin() returns (nonEmpty: bool)
      modifies this
      ensures Valid() && pos == 0
      ensures nonEmpty <==> d.fields != []
      ensures forall at :: LaidOut(d.fields, at, sizeMax) ==> InPlace(at)
    {
      pos := 0;
      requiredFieldIndex := 0;
      if d.fields == [] {
        pData, pSize := 0, 0;
      } else {
        pData := d.fields[0].place.dataOffset;
        pSize := pData + d.fields[0].place.sizeOffset;
      }
      nonEmpty := d.fields != [];
    }

    /** pb_field_iter_next: false when the iterator wraps. */
    method Next() returns (more: bool)
      requires Valid()
      modifies this
      ensures Valid()
      ensures pos == if old(pos) + 1 < |d.fields| then old(pos) + 1 else 0
      ensures more <==> pos != 0
      ensures forall at :: LaidOut(d.fields, at, sizeMax) && old(InPlace(at)) ==> InPlace(at)
    {
      if d.fields == [] {
        return false;
      }
      var prev := d.fields[pos];
      pos := pos + 1;
      if pos == |d.fields| {
        var _ := Begin();
        return false;
      }
      var prevSize := prev.place.dataSize;
      if InUnion(prev, d.fields[pos], sizeMax) {
        return true;
      } else if prev.htype.Repeated? {
        prevSize := prevSize * prev.htype.maxCount;
      }
      if prev.htype.Required? {
        requiredFieldIndex := requiredFieldIndex + 1;
      }
      pData := pData + prevSize + d.fields[pos].place.dataOffset;
      pSize := pData + d.fields[pos].place.sizeOffset;
      return true;
    }

    /** pb_field_iter_find: searches once around the table.  The terminator row
        of an empty table answers to tag 0. */
    method Find(tag: nat) returns (found: bool)
      requires Valid() && WellFormed(d)
      modifies this
      ensures Valid()
      ensures found <==> (d.fields == [] && tag == 0) || exists i :: 0 <= i < |d.fields| && d.fields[i].tag == tag
      ensures found && d.fields != [] ==> PbWire.Find(d, tag) == Options.Some(pos)
      ensures !found ==> pos == old(pos)
      ensures forall at :: LaidOut(d.fields, at, sizeMax) && old(InPlace(at)) ==> InPlace(at)
    {
      var start := pos;
      if d.fields == [] {
        if tag == 0 {
          return true;
        }
        var _ := Next();
        return false;
      }
      ghost var n := |d.fields|;
      ghost var steps := 0;
      while true
        invariant Valid() && steps < n && pos == Around(start, steps, n)
        invariant forall k :: 0 <= k < steps ==>
                    d.fields[Around(start, k, n)].tag != tag
        invariant forall at :: LaidOut(d.fields, at, sizeMax) && old(InPlace(at)) ==> InPlace(at)
        decreases n - steps
      {
        if d.fields[pos].tag == tag {
          FindOwn(d, pos, 0);
          return true;
        }
        var _ := Next();
        steps := steps + 1;
        if pos == start {
          forall i | 0 <= i < n
            ensures d.fields[i].tag != tag
          {
            var k := if i >= start then i - start else i + n - start;
            assert d.fields[Around(start, k, n)].tag != tag;
          }
          return false;
        }
      }
    }
  }

  // -- The required-field bitmap ---------------------------------------------------------

  /** fields_seen[(PB_MAX_REQUIRED_FIELDS + 31) / 32], two 32-bit words. */
  class RequiredBits {
    var words: array<nat>

    ghost predicate Valid()
      reads this, words
    {
      words.Length == 2 && words[0] < One(32) && words[1] < One(32)
    }

    /** The required fields marked so far. */
    ghost function Seen(): set<nat>
      reads this, words
      requires Valid()
    {
      set k: nat | k < MAX_REQUIRED && Bit(words[k / 32], k % 32)
    }

    constructor ()
      ensures Valid() && fresh(words) && Seen() == {}
    {
      words := new nat[2](_ => 0);
      new;
      forall k: nat | k < MAX_REQUIRED ensures !Bit(words[k / 32], k % 32) {
        ZeroBit(k % 32);
      }
    }

    /** `fields_seen[i >> 5] |= 1 << (i & 31)`. */
    method Mark(i: nat)
      requires Valid() && i < MAX_REQUIRED
      modifies words
      ensures Valid() && Seen() == old(Seen()) + {i}
    {
      OneGrows(i % 32 + 1, 32);
      OrBound(words[i / 32], One(i % 32), 32);
      ghost var before := words[i / 32];
      words[i / 32] := Or(words[i / 32], One(i % 32));
      forall k: nat | k < MAX_REQUIRED
        ensures Bit(words[k / 32], k % 32) <==> old(Bit(words[k / 32], k % 32)) || k == i
      {
        if k / 32 == i / 32 {
          OrBit(before, One(i % 32), k % 32);
          OneBit(i % 32, k % 32);
        }
      }
    }

    /** The final test of pb_decode_noinit on `count` required fields: whole
        words first, then the remaining bits. */
    method Complete(count: nat) returns (ok: bool)
      requires Valid()
      requires forall k :: k in Seen() ==> k < count
      ensures ok <==> forall k :: 0 <= k < count && k < MAX_REQUIRED ==> k in Seen()
    {
      var n := if count > MAX_REQUIRED then MAX_REQUIRED else count;
      var i := 0;
      while i < n / 32
        invariant 0 <= i <= n / 32
        invariant forall k: nat :: k < 32 * i ==> k in Seen()
      {
        AllOnes(words[i], 32);
        if words[i] != LowOnes(32) {
          var j :| 0 <= j < 32 && !Bit(words[i], j);
          assert (32 * i + j) / 32 == i && (32 * i + j) % 32 == j;
          assert 32 * i + j !in Seen();
          return false;
        }
        forall k: nat | k < 32 * (i + 1) ensures k in Seen() {
          if k >= 32 * i {
            assert k / 32 == i && Bit(words[i], k % 32);
          }
        }
        i := i + 1;
      }
      if n % 32 != 0 {
        LastWord(n);
        if words[n / 32] != LowOnes(n % 32) {
          return false;
        }
      }
      return true;
    }

    lemma LastWord(n: nat)
      requires Valid() && n <= MAX_REQUIRED && n % 32 != 0
      requires forall k :: k in Seen() ==> k < n
      ensures words[n / 32] == LowOnes(n % 32) <==> forall k :: n - n % 32 <= k < n ==> k in Seen()
    {
      var w, b := words[n / 32], n - n % 32;
      forall j | n % 32 <= j < 32
        ensures !Bit(w, j)
      {
        assert (b + j) / 32 == n / 32 && (b + j) % 32 == j;
        assert b + j !in Seen();
      }
      FewBits(w, n % 32, 32);
      AllOnes(w, n % 32);
      forall k | b <= k < n
        ensures k in Seen() <==> Bit(w, k - b)
      {
        assert k / 32 == n / 32 && k % 32 == k - b;
      }
      if forall k :: b <= k < n ==> k in Seen() {
        forall j | 0 <= j < n % 32 ensures Bit(w, j) {
          assert b + j in Seen();
        }
      }
    }
  }
}
