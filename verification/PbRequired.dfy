/** Required fields: a message decodes exactly when its records can be read and the
    first 64 required fields are among them. */
module PbRequired {
  import opened Bytes
  import opened Options
  import opened PbLaws
  import opened PbModel
  import opened PbRoundTrip
  import opened PbWire

  /** The required fields before field `i`. */
  ghost function Ahead(d: Descriptor, i: nat): set<nat> {
    set j: nat | j < i && j < |d.fields| && d.fields[j].htype.Required?
  }

  ghost function RequiredAhead(d: Descriptor, i: nat): nat {
    |Ahead(d, i)|
  }

  lemma OneFurther(d: Descriptor, i: nat)
    requires 0 < i <= |d.fields|
    ensures Ahead(d, i) == if d.fields[i - 1].htype.Required? then Ahead(d, i - 1) + {i - 1} else Ahead(d, i - 1)
    ensures i - 1 !in Ahead(d, i - 1)
  {
  }

  lemma {:induction false} AheadCounts(d: Descriptor, i: nat)
    requires i <= |d.fields|
    ensures RequiredAhead(d, i) == RequiredBefore(d, i)
  {
    if i == 0 {
      assert Ahead(d, i) == {};
    } else {
      hide Ahead;
      AheadCounts(d, i - 1);
      OneFurther(d, i);
    }
  }

  /** The tags of the records that pb_decode_noinit reads at the top level, up to the end
      or a zero tag; None if one of them cannot be read. */
  function TagsOf(d: Descriptor, m: Message, bs: seq<byte>): Option<seq<nat>>
    requires WellFormed(d) && |m.slots| == d.slots
    decreases |bs|
  {
    if bs == [] then Some([])
    else
      match ReadTag(bs)
      case TagFailed => None
      case TagStop(_) => Some([])
      case Tagged(tag, wt, rest) =>
        match Find(d, tag)
        case None =>
          if d.fields == [] && tag == 0 then None
          else (match Skip(wt, rest) case None => None case Some(r) => Before(tag, TagsOf(d, m, r)))
        case Some(i) =>
          assert FieldOk(d.fields[i]);
          match DecodeField(d.fields[i], m.slots[d.fields[i].slot], wt, rest)
          case None => None
          case Some(p) => Before(tag, TagsOf(d, With(d, m, i, p.val), p.rest))
  }

  function Before(tag: nat, tags: Option<seq<nat>>): Option<seq<nat>> {
    match tags case None => None case Some(ts) => Some([tag] + ts)
  }

  /** Field `i` is one of those whose presence is checked. */
  predicate Checked(d: Descriptor, i: nat) {
    i < |d.fields| && d.fields[i].htype.Required? && RequiredBefore(d, i) < MAX_REQUIRED
  }

  /** Number `k` is marked: it was, or its field is among the tags. */
  ghost predicate Marked(d: Descriptor, seen: set<nat>, tags: seq<nat>, k: nat) {
    k in seen || exists i :: 0 <= i < |d.fields| && Marks(d, tags, i, k)
  }

  predicate Marks(d: Descriptor, tags: seq<nat>, i: nat, k: nat) {
    Checked(d, i) && RequiredBefore(d, i) == k && d.fields[i].tag in tags
  }

  lemma MarkedNext(d: Descriptor, i: nat, seen: set<nat>, ts: seq<nat>, k: nat)
    requires WellFormed(d) && i < |d.fields|
    ensures Marked(d, MarkSeen(d, i, seen), ts, k) <==> Marked(d, seen, [d.fields[i].tag] + ts, k)
  {
    var all := [d.fields[i].tag] + ts;
    if Marked(d, MarkSeen(d, i, seen), ts, k) && k !in seen {
      if k in MarkSeen(d, i, seen) {
        assert Marks(d, all, i, k);
      } else {
        var j :| 0 <= j < |d.fields| && Marks(d, ts, j, k);
        assert Marks(d, all, j, k);
      }
    }
    if Marked(d, seen, all, k) && k !in seen {
      var j :| 0 <= j < |d.fields| && Marks(d, all, j, k);
      if j != i {
        assert Separate(d.fields[if i < j then i else j], d.fields[if i < j then j else i]);
        assert Marks(d, ts, j, k);
      }
    }
  }

  lemma MarkedSame(d: Descriptor, tag: nat, seen: set<nat>, ts: seq<nat>, k: nat)
    requires Find(d, tag) == None
    ensures Marked(d, seen, ts, k) <==> Marked(d, seen, [tag] + ts, k)
  {
    if Marked(d, seen, ts, k) && k !in seen {
      var j :| 0 <= j < |d.fields| && Marks(d, ts, j, k);
      assert Marks(d, [tag] + ts, j, k);
    }
    if Marked(d, seen, [tag] + ts, k) && k !in seen {
      var j :| 0 <= j < |d.fields| && Marks(d, [tag] + ts, j, k);
      assert Marks(d, ts, j, k);
    }
  }

  /** The loop marks the required fields whose tags it reads. */
  lemma {:induction false} LoopMarks(d: Descriptor, m: Message, seen: set<nat>, bs: seq<byte>)
    requires WellFormed(d) && |m.slots| == d.slots
    ensures TagsOf(d, m, bs).Some? <==> DecodeLoop(d, m, seen, bs).Some?
    ensures TagsOf(d, m, bs).Some? ==>
              forall k :: k in DecodeLoop(d, m, seen, bs).value.seen <==> Marked(d, seen, TagsOf(d, m, bs).value, k)
    decreases |bs|
  {
    hide Skip, DecodeField, MarkSeen, Marks;
    if bs == [] || !ReadTag(bs).Tagged? {
      NoneMarked(d, seen);
    } else {
      var t := ReadTag(bs);
      match Find(d, t.tag)
      case None =>
        if !(d.fields == [] && t.tag == 0) && Skip(t.wt, t.rest).Some? {
          var r := Skip(t.wt, t.rest).value;
          LoopMarks(d, m, seen, r);
          forall k | TagsOf(d, m, r).Some?
            ensures Marked(d, seen, TagsOf(d, m, r).value, k) <==> Marked(d, seen, [t.tag] + TagsOf(d, m, r).value, k)
          {
            MarkedSame(d, t.tag, seen, TagsOf(d, m, r).value, k);
          }
        }
      case Some(i) =>
        assert FieldOk(d.fields[i]);
        var f := DecodeField(d.fields[i], m.slots[d.fields[i].slot], t.wt, t.rest);
        if f.Some? {
          var m', r := With(d, m, i, f.value.val), f.value.rest;
          LoopMarks(d, m', MarkSeen(d, i, seen), r);
          forall k | TagsOf(d, m', r).Some?
            ensures Marked(d, MarkSeen(d, i, seen), TagsOf(d, m', r).value, k)
               <==> Marked(d, seen, [t.tag] + TagsOf(d, m', r).value, k)
          {
            MarkedNext(d, i, seen, TagsOf(d, m', r).value, k);
          }
        }
    }
  }

  lemma NoneMarked(d: Descriptor, seen: set<nat>)
    ensures forall k :: Marked(d, seen, [], k) <==> k in seen
  {
  }

  /** Required field number `k`. */
  lemma {:induction false} NthRequired(d: Descriptor, n: nat, k: nat) returns (i: nat)
    requires n <= |d.fields| && k < RequiredBefore(d, n)
    ensures i < n && d.fields[i].htype.Required? && RequiredBefore(d, i) == k
  {
    if k < RequiredBefore(d, n - 1) {
      i := NthRequired(d, n - 1, k);
    } else {
      i := n - 1;
    }
  }

  lemma {:induction false} RequiredGrows(d: Descriptor, i: nat, j: nat)
    requires i < j <= |d.fields|
    ensures RequiredBefore(d, i) + (if d.fields[i].htype.Required? then 1 else 0) <= RequiredBefore(d, j)
  {
    if i + 1 < j {
      RequiredGrows(d, i, j - 1);
    }
  }

  /** The numbers of required fields are their own. */
  lemma OwnNumber(d: Descriptor, i: nat, j: nat)
    requires i < |d.fields| && j < |d.fields| && d.fields[i].htype.Required? && d.fields[j].htype.Required?
    requires RequiredBefore(d, i) == RequiredBefore(d, j)
    ensures i == j
  {
    if i < j {
      RequiredGrows(d, i, j);
    } else if j < i {
      RequiredGrows(d, j, i);
    }
  }

  /** pb_decode succeeds if and only if every record can be read and each of the first 64
      required fields has one: it reports "missing required field" otherwise. */
  lemma RequiredExactly(d: Descriptor, m: Message, bs: seq<byte>)
    requires WellFormed(d) && |m.slots| == d.slots
    ensures DecodeNoinit(d, m, bs).Some? <==>
              && TagsOf(d, m, bs).Some?
              && forall i :: 0 <= i < |d.fields| && d.fields[i].htype.Required? && RequiredAhead(d, i) < 64 ==>
                   d.fields[i].tag in TagsOf(d, m, bs).value
  {
    hide DecodeLoop, TagsOf;
    LoopMarks(d, m, {}, bs);
    forall i | 0 <= i < |d.fields| ensures RequiredAhead(d, i) == RequiredBefore(d, i) {
      AheadCounts(d, i);
    }
    hide RequiredAhead;
    if TagsOf(d, m, bs).Some? {
      var tags, l := TagsOf(d, m, bs).value, DecodeLoop(d, m, {}, bs).value;
      if AllSeen(d, l.seen) {
        forall i | 0 <= i < |d.fields| && d.fields[i].htype.Required? && RequiredBefore(d, i) < 64
          ensures d.fields[i].tag in tags
        {
          RequiredGrows(d, i, |d.fields|);
          assert RequiredBefore(d, i) in l.seen && Marked(d, {}, tags, RequiredBefore(d, i));
          var j :| 0 <= j < |d.fields| && Marks(d, tags, j, RequiredBefore(d, i));
          OwnNumber(d, i, j);
        }
      }
      if forall i :: 0 <= i < |d.fields| && Checked(d, i) ==> d.fields[i].tag in tags {
        forall k | 0 <= k < MAX_REQUIRED && k < RequiredBefore(d, |d.fields|) ensures k in l.seen {
          var i := NthRequired(d, |d.fields|, k);
          assert Marks(d, tags, i, k);
          assert Marked(d, {}, tags, k);
        }
      }
    }
  }

  // -- A record taken out ------------------------------------------------------------------------

  /** The encoding from field `i` on without the record of field `skip`. */
  function EncodeWithout(d: Descriptor, m: Message, skip: nat, i: nat): Option<seq<byte>>
    requires |m.slots| == d.slots && WellFormed(d)
    decreases |d.fields| - i
  {
    if i >= |d.fields| then Some([])
    else Append(if i == skip then Some([]) else EncodeField(d.fields[i], m.slots[d.fields[i].slot]),
                EncodeWithout(d, m, skip, i + 1))
  }

  lemma {:induction false} SameItself(lt: LType, v: Value)
    requires LTypeOk(lt) && ValueOk(lt, v, false)
    ensures SameValue(lt, v, v)
    decreases lt
  {
    if lt.LSubmessage? {
      forall i | 0 <= i < |lt.sub.fields|
        ensures SameSlot(lt.sub.fields[i], v.m.slots[lt.sub.fields[i].slot], v.m.slots[lt.sub.fields[i].slot])
      {
        var f, s := lt.sub.fields[i], v.m.slots[lt.sub.fields[i].slot];
        assert FieldOk(f) && LTypeOk(f.ltype) && SlotOk(f, s, false);
        match s
        case Plain(w) => SameItself(f.ltype, w);
        case Maybe(has, w) => if has { SameItself(f.ltype, w); }
        case Many(vs) =>
          forall k | 0 <= k < |vs| ensures SameValue(f.ltype, vs[k], vs[k]) {
            SameItself(f.ltype, vs[k]);
          }
        case Union(which, w) => if which == f.tag { SameItself(f.ltype, w); }
      }
    }
  }

  /** `m` with the default in the required field `skip`. */
  function Blank(d: Descriptor, m: Message, skip: nat): (r: Message)
    requires WellFormed(d) && |m.slots| == d.slots && skip < |d.fields|
    ensures |r.slots| == d.slots
  {
    assert FieldOk(d.fields[skip]);
    With(d, m, skip, DefaultSlot(d.fields[skip]))
  }

  lemma BlankElsewhere(d: Descriptor, m: Message, skip: nat, i: nat)
    requires WellFormed(d) && |m.slots| == d.slots && skip < |d.fields| && d.fields[skip].htype.Required?
    requires i < |d.fields| && i != skip
    ensures Blank(d, m, skip).slots[d.fields[i].slot] == m.slots[d.fields[i].slot]
  {
    assert Separate(d.fields[if i < skip then i else skip], d.fields[if i < skip then skip else i]);
  }

  lemma {:induction false} WithoutLoop(d: Descriptor, m: Message, cur: Message, seen: set<nat>, skip: nat, i: nat,
                       e: seq<byte>) returns (l: Loop)
    requires WellFormed(d) && |m.slots| == d.slots && skip < |d.fields| && d.fields[skip].htype.Required?
    requires MessageOk(d, Blank(d, m, skip), false) && FitsMessage(d, m)
    requires i <= |d.fields| && Progress(d, Blank(d, m, skip), cur, i) && RequiredBefore(d, skip) !in seen
    requires EncodeWithout(d, m, skip, i) == Some(e)
    ensures DecodeLoop(d, cur, seen, e) == Some(l) && RequiredBefore(d, skip) !in l.seen
    decreases |d.fields| - i
  {
    var b := Blank(d, m, skip);
    if i == |d.fields| {
      l := Loop(cur, seen, [], false);
    } else if i == skip {
      assert e == [] + EncodeWithout(d, m, skip, i + 1).value == EncodeWithout(d, m, skip, i + 1).value;
      PassOver(d, b, cur, skip);
      l := WithoutLoop(d, m, cur, seen, skip, i + 1, e);
    } else {
      BlankElsewhere(d, m, skip, i);
      var fe := EncodeField(d.fields[i], m.slots[d.fields[i].slot]).value;
      var te := EncodeWithout(d, m, skip, i + 1).value;
      var next := FieldRoundTrip(d, b, cur, seen, i, fe, te);
      if d.fields[i].htype.Required? && RequiredBefore(d, i) == RequiredBefore(d, skip) {
        OwnNumber(d, i, skip);
      }
      l := WithoutLoop(d, m, next, MarkSeen(d, i, seen), skip, i + 1, te);
    }
  }

  lemma PassOver(d: Descriptor, b: Message, cur: Message, skip: nat)
    requires WellFormed(d) && skip < |d.fields| && d.fields[skip].htype.Required? && MessageOk(d, b, false)
    requires Progress(d, b, cur, skip) && b.slots[d.fields[skip].slot] == DefaultSlot(d.fields[skip])
    ensures Progress(d, b, cur, skip + 1)
  {
    var f := d.fields[skip];
    assert FieldOk(f) && LTypeOk(f.ltype) && Untouched(d, cur, skip);
    assert SlotOk(f, b.slots[f.slot], false);
    SameItself(f.ltype, InitValue(f));
    assert Arrived(d, b, cur, skip);
  }

  lemma BlankOk(d: Descriptor, m: Message, skip: nat)
    requires WellFormed(d) && MessageOk(d, m, false) && skip < |d.fields| && d.fields[skip].htype.Required?
    ensures MessageOk(d, Blank(d, m, skip), false)
  {
    var b := Blank(d, m, skip);
    DefaultsOk(d);
    DefaultsSlots(d);
    forall i | 0 <= i < |d.fields| ensures SlotOk(d.fields[i], b.slots[d.fields[i].slot], false) {
      assert FieldOk(d.fields[i]) && SlotOk(d.fields[i], m.slots[d.fields[i].slot], false);
      if i == skip {
        InitValueOk(d.fields[i]);
        OkLess(d.fields[i].ltype, InitValue(d.fields[i]));
      } else {
        BlankElsewhere(d, m, skip, i);
      }
    }
  }

  /** What fits everywhere fits where it matters. */
  lemma {:induction false} OkLess(lt: LType, v: Value)
    requires LTypeOk(lt) && ValueOk(lt, v, true)
    ensures ValueOk(lt, v, false)
    decreases lt
  {
    if lt.LSubmessage? {
      forall i | 0 <= i < |lt.sub.fields| ensures SlotOk(lt.sub.fields[i], v.m.slots[lt.sub.fields[i].slot], false) {
        var f, s := lt.sub.fields[i], v.m.slots[lt.sub.fields[i].slot];
        assert FieldOk(f) && LTypeOk(f.ltype) && SlotOk(f, s, true);
        match s
        case Plain(w) => OkLess(f.ltype, w);
        case Maybe(_, w) => OkLess(f.ltype, w);
        case Many(vs) =>
          forall k | 0 <= k < |vs| ensures ValueOk(f.ltype, vs[k], false) {
            OkLess(f.ltype, vs[k]);
          }
        case Union(which, w) => if which == f.tag { OkLess(f.ltype, w); }
      }
    }
  }

  /** The converse of the round trip: an encoding that has lost the record of a required
      field is refused. */
  lemma MissingRecordRefused(d: Descriptor, m: Message, skip: nat, e: seq<byte>)
    requires WellFormed(d) && MessageOk(d, m, false) && FitsMessage(d, m)
    requires skip < |d.fields| && d.fields[skip].htype.Required? && RequiredAhead(d, skip) < 64
    requires EncodeWithout(d, m, skip, 0) == Some(e)
    ensures Decode(d, e) == None
  {
    AheadCounts(d, skip);
    BlankOk(d, m, skip);
    DefaultsSlots(d);
    var b := Blank(d, m, skip);
    forall j | 0 <= j < |d.fields| ensures Untouched(d, Defaults(d), j) {
      assert FieldOk(d.fields[j]) && Defaults(d).slots[d.fields[j].slot] == DefaultSlot(d.fields[j]);
    }
    var l := WithoutLoop(d, m, Defaults(d), {}, skip, 0, e);
    RequiredGrows(d, skip, |d.fields|);
  }

  /** The smallest case: nothing at all, for a message with a required field. */
  lemma EmptyRefused(d: Descriptor, i: nat)
    requires WellFormed(d) && i < |d.fields| && d.fields[i].htype.Required? && RequiredAhead(d, i) < 64
    ensures Decode(d, []) == None
  {
    RequiredExactly(d, Defaults(d), []);
  }
}
