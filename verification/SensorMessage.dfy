/** The Sensor message as a value, and what its wire form means.

    A message is the five 32-bit patterns of its floats. `Parse` is the plain reading of a byte string:
    read a tag, dispatch on it, repeat. It is the reference the generated parser is proved against
    (SensorCodec), and the codec laws are proved about it here. */
module SensorMessage {
  import opened Basics
  import opened WireFormat

  type Bits = uint32
  type Args = s: seq<Bits> | |s| == 5 witness [0, 0, 0, 0, 0]

  function FiveArgs(a: Bits, b: Bits, c: Bits, d: Bits, e: Bits): Args {
    [a, b, c, d, e]
  }

  const CLEARED: Args := [0, 0, 0, 0, 0]

  /** `x != 0` on the float with this pattern: false exactly for +0.0 and -0.0 (section 5.11 of IEEE 754-2008). */
  predicate NonZero(b: Bits) {
    b != 0 && b != 0x8000_0000
  }

  /** The tag of argument i: field number i + 1, wire type fixed32. */
  function ArgTag(i: nat): uint32
    requires i < 5
  {
    8 * (i + 1) + 5
  }

  predicate IsArgTag(tag: uint32) {
    tag % 8 == 5 && 1 <= tag / 8 <= 5
  }

  /** No tag at all, or one that ends a group. */
  predicate EndsMessage(tag: uint32): (ends: bool)
    ensures tag == 0 ==> ends
  {
    tag == 0 || tag % 8 == END_GROUP
  }

  // ----- reading -----

  /** The end of a parse. When ok, lastTag and legitimateEnd are what the stream reports afterwards. */
  datatype Outcome = Outcome(ok: bool, args: Args, lastTag: uint32, legitimateEnd: bool, rest: seq<byte>)

  function Failed(m: Args): Outcome {
    Outcome(false, m, 0, false, [])
  }

  /** m after the float with this tag has been read. */
  function Stored(tag: uint32, payload: seq<byte>, m: Args): Args
    requires IsArgTag(tag) && |payload| == 4
  {
    m[tag / 8 - 1 := FromLittleEndian32(payload)]
  }

  function Parse(s: seq<byte>, m: Args, depth: nat): Outcome
    decreases |s|
  {
    var t := ReadTag(s);
    var body := s[t.size..];
    if EndsMessage(t.value) then Outcome(true, m, t.value, t.atEnd, body)
    else if IsArgTag(t.value) then
      if |body| < 4 then Failed(m) else Parse(body[4..], Stored(t.value, body[..4], m), depth)
    else
      match SkipField(body, t.value, depth)
      case None => Failed(m)
      case Some(n) => Parse(body[n..], m, depth)
  }

  /** What is left of the parse once the tag of an argument has been read. */
  function AfterTag(tag: uint32, body: seq<byte>, m: Args, depth: nat): Outcome
    requires IsArgTag(tag)
  {
    if |body| < 4 then Failed(m) else Parse(body[4..], Stored(tag, body[..4], m), depth)
  }

  /** What is left of it once any other tag has been read: the end, or a field to skip. */
  function AfterUnusual(tag: uint32, atEnd: bool, body: seq<byte>, m: Args, depth: nat): Outcome {
    if EndsMessage(tag) then Outcome(true, m, tag, atEnd, body)
    else match SkipField(body, tag, depth)
         case None => Failed(m)
         case Some(n) => Parse(body[n..], m, depth)
  }

  /** One round of the parse, whatever its tag. */
  lemma {:induction false} ParseByTag(s: seq<byte>, m: Args, depth: nat)
    ensures var t := ReadTag(s);
            Parse(s, m, depth) ==
            if IsArgTag(t.value) then AfterTag(t.value, s[t.size..], m, depth)
            else AfterUnusual(t.value, t.atEnd, s[t.size..], m, depth)
    ensures s == [] ==> Parse(s, m, depth) == Outcome(true, m, 0, true, [])
  {
    hide SkipField;
  }

  // ----- whole fields -----

  /** One field as it stands on the wire: the bytes of its tag, in any varint spelling, and its payload. */
  datatype Record = Record(tagBytes: seq<byte>, payload: seq<byte>) {
    function TagValue(): uint32 {
      ReadTag(tagBytes).value
    }

    /** A complete field: an argument with its four bytes, or an unknown field or one of the wrong wire
        type that skips to exactly the end of its payload. */
    predicate WellFormed(depth: nat) {
      && ReadTag(tagBytes).size == |tagBytes|
      && TagValue() != 0 && TagValue() % 8 != END_GROUP
      && SkipField(payload, TagValue(), depth) == Some(|payload|)
    }

    predicate Sets(i: nat) {
      IsArgTag(TagValue()) && i + 1 == TagValue() / 8 && |payload| == 4
    }
  }

  predicate AllWellFormed(rs: seq<Record>, depth: nat) {
    forall r <- rs :: r.WellFormed(depth)
  }

  function Encode(rs: seq<Record>): seq<byte> {
    if rs == [] then [] else rs[0].tagBytes + rs[0].payload + Encode(rs[1..])
  }

  /** The value argument i has after rs: that of its last occurrence, or m's when it does not occur. */
  function LastValue(rs: seq<Record>, i: nat, m: Bits): Bits {
    if rs == [] then m
    else if rs[|rs| - 1].Sets(i) then FromLittleEndian32(rs[|rs| - 1].payload)
    else LastValue(rs[..|rs| - 1], i, m)
  }

  function Applied(rs: seq<Record>, m: Args): Args {
    seq(5, i requires 0 <= i < 5 => LastValue(rs, i, m[i]))
  }

  lemma {:induction false} LastValueCons(r: Record, rs: seq<Record>, i: nat, m: Bits)
    ensures LastValue([r] + rs, i, m) == LastValue(rs, i, if r.Sets(i) then FromLittleEndian32(r.payload) else m)
  {
    var all := [r] + rs;
    if rs != [] {
      assert all[..|all| - 1] == [r] + rs[..|rs| - 1];
      LastValueCons(r, rs[..|rs| - 1], i, m);
    } else {
      assert all[..|all| - 1] == [];
    }
  }

  lemma {:induction false} LastValueAppend(rs: seq<Record>, qs: seq<Record>, i: nat, m: Bits)
    ensures LastValue(rs + qs, i, m) == LastValue(qs, i, LastValue(rs, i, m))
  {
    if qs == [] {
      assert rs + qs == rs;
    } else {
      assert (rs + qs)[..|rs + qs| - 1] == rs + qs[..|qs| - 1];
      LastValueAppend(rs, qs[..|qs| - 1], i, m);
    }
  }

  lemma {:induction false} EncodeCons(r: Record, rs: seq<Record>, depth: nat)
    ensures Encode([r] + rs) == r.tagBytes + r.payload + Encode(rs)
    ensures r.WellFormed(depth) && AllWellFormed(rs, depth) ==> AllWellFormed([r] + rs, depth)
  {
  }

  // ----- the parse of whole fields -----

  /** One round of the parse over a field that is there in full. */
  lemma {:induction false} ParseStep(s: seq<byte>, tag: Tag, n: nat, m: Args, depth: nat)
    requires ReadTag(s) == tag && tag.value != 0 && tag.value % 8 != END_GROUP
    requires SkipField(s[tag.size..], tag.value, depth) == Some(n)
    ensures IsArgTag(tag.value) ==> n == 4
    ensures Parse(s, m, depth) ==
            Parse(s[tag.size + n..], if IsArgTag(tag.value) then Stored(tag.value, s[tag.size..][..n], m) else m, depth)
  {
    assert s[tag.size..][n..] == s[tag.size + n..];
  }

  lemma AppliedOne(r: Record, m: Args, depth: nat)
    requires r.WellFormed(depth)
    ensures IsArgTag(r.TagValue()) ==> |r.payload| == 4
    ensures Applied([r], m) == if IsArgTag(r.TagValue()) then Stored(r.TagValue(), r.payload, m) else m
  {
    assert [r] + [] == [r];
    forall i: nat | i < 5
      ensures LastValue([r], i, m[i]) == if r.Sets(i) then FromLittleEndian32(r.payload) else m[i]
    {
      LastValueCons(r, [], i, m[i]);
    }
  }

  lemma ParseRecord(r: Record, tail: seq<byte>, m: Args, depth: nat)
    requires r.WellFormed(depth)
    ensures Parse(r.tagBytes + r.payload + tail, m, depth) == Parse(tail, Applied([r], m), depth)
  {
    var s, tag, n := r.tagBytes + r.payload + tail, ReadTag(r.tagBytes), |r.payload|;
    AppliedOne(r, m, depth);
    ReadTagLocal(r.tagBytes, r.payload + tail);
    SkipFieldExtends(r.payload, tail, tag.value, depth);
    hide Parse, SkipField, ReadTag, Applied;
    assert s == r.tagBytes + (r.payload + tail);
    assert s[tag.size..] == r.payload + tail;
    ParseStep(s, tag, n, m, depth);
    assert s[tag.size..][..n] == r.payload && s[tag.size + n..] == tail;
  }

  /** A run of whole fields is read field by field: every argument ends up with the value of its last
      occurrence, and fields the message does not know change nothing. */
  lemma {:induction false} ParseRecords(rs: seq<Record>, tail: seq<byte>, m: Args, depth: nat)
    requires AllWellFormed(rs, depth)
    ensures Parse(Encode(rs) + tail, m, depth) == Parse(tail, Applied(rs, m), depth)
    decreases |rs|
  {
    if rs == [] {
      assert Encode(rs) + tail == tail;
      assert Applied(rs, m) == m;
    } else {
      var r, more := rs[0], rs[1..];
      assert rs == [r] + more;
      assert Encode(rs) + tail == r.tagBytes + r.payload + (Encode(more) + tail);
      ParseRecord(r, Encode(more) + tail, m, depth);
      ParseRecords(more, tail, Applied([r], m), depth);
      AppliedAppend([r], more, m);
    }
  }

  lemma AppliedAppend(rs: seq<Record>, qs: seq<Record>, m: Args)
    ensures Applied(rs + qs, m) == Applied(qs, Applied(rs, m))
  {
    forall i: nat | i < 5 ensures Applied(rs + qs, m)[i] == Applied(qs, Applied(rs, m))[i] {
      LastValueAppend(rs, qs, i, m[i]);
    }
  }

  /** The fields a byte string begins with. */
  function Records(s: seq<byte>, depth: nat): (rs: seq<Record>)
    decreases |s|
  {
    var t := ReadTag(s);
    if EndsMessage(t.value) then []
    else
      match SkipField(s[t.size..], t.value, depth)
      case None => []
      case Some(n) => [Record(s[..t.size], s[t.size..t.size + n])] + Records(s[t.size + n..], depth)
  }

  lemma RecordAtFront(s: seq<byte>, tag: Tag, n: nat, depth: nat)
    requires ReadTag(s) == tag && tag.value != 0 && tag.value % 8 != END_GROUP
    requires SkipField(s[tag.size..], tag.value, depth) == Some(n)
    ensures Record(s[..tag.size], s[tag.size..tag.size + n]).WellFormed(depth)
  {
    ReadTagLocal(s, []);
    SkipFieldCut(s[tag.size..], tag.value, depth);
    hide SkipField, ReadTag;
    assert s[tag.size..][..n] == s[tag.size..tag.size + n];
  }

  lemma {:induction false} RecordsUnfold(s: seq<byte>, tag: Tag, n: nat, depth: nat)
    requires ReadTag(s) == tag && tag.value != 0 && tag.value % 8 != END_GROUP
    requires SkipField(s[tag.size..], tag.value, depth) == Some(n)
    ensures Records(s, depth) ==
            [Record(s[..tag.size], s[tag.size..tag.size + n])] + Records(s[tag.size + n..], depth)
  {
  }

  lemma RecordsStep(s: seq<byte>, tag: Tag, n: nat, depth: nat)
    requires ReadTag(s) == tag && tag.value != 0 && tag.value % 8 != END_GROUP
    requires SkipField(s[tag.size..], tag.value, depth) == Some(n)
    requires AllWellFormed(Records(s[tag.size + n..], depth), depth)
    requires Encode(Records(s[tag.size + n..], depth)) == s[tag.size + n..]
    ensures AllWellFormed(Records(s, depth), depth) && Encode(Records(s, depth)) == s
  {
    hide Records, SkipField, ReadTag, AllWellFormed, Encode, Record.WellFormed;
    var r, more := Record(s[..tag.size], s[tag.size..tag.size + n]), Records(s[tag.size + n..], depth);
    RecordAtFront(s, tag, n, depth);
    RecordsUnfold(s, tag, n, depth);
    EncodeCons(r, more, depth);
    assert s == r.tagBytes + r.payload + s[tag.size + n..];
  }

  lemma {:induction false} RecordsWhenClean(s: seq<byte>, m: Args, depth: nat)
    requires Parse(s, m, depth).ok && Parse(s, m, depth).legitimateEnd
    ensures AllWellFormed(Records(s, depth), depth) && Encode(Records(s, depth)) == s
    decreases |s|
  {
    var tag := ReadTag(s);
    if tag.value != 0 {
      var body := s[tag.size..];
      assert SkipField(body, tag.value, depth).Some?;
      var n := SkipField(body, tag.value, depth).value;
      ParseStep(s, tag, n, m, depth);
      RecordsWhenClean(s[tag.size + n..], if IsArgTag(tag.value) then Stored(tag.value, body[..n], m) else m, depth);
      RecordsStep(s, tag, n, depth);
    }
  }

  /** The accepted language: a parse succeeds and reaches the true end of its input exactly on the
      concatenations of whole fields, and then it has applied them in order. */
  lemma CleanParseIffWholeFields(s: seq<byte>, m: Args, depth: nat)
    ensures (Parse(s, m, depth).ok && Parse(s, m, depth).legitimateEnd)
       <==> (exists rs :: AllWellFormed(rs, depth) && Encode(rs) == s)
    ensures forall rs | AllWellFormed(rs, depth) && Encode(rs) == s ::
              Parse(s, m, depth) == Outcome(true, Applied(rs, m), 0, true, [])
  {
    forall rs | AllWellFormed(rs, depth) && Encode(rs) == s
      ensures Parse(s, m, depth) == Outcome(true, Applied(rs, m), 0, true, [])
    {
      ParseRecords(rs, [], m, depth);
      assert Encode(rs) + [] == s;
    }
    if Parse(s, m, depth).ok && Parse(s, m, depth).legitimateEnd {
      RecordsWhenClean(s, m, depth);
    }
  }

  lemma {:induction false} NoRecords(s: seq<byte>, m: Args, depth: nat)
    requires EndsMessage(ReadTag(s).value) || SkipField(s[ReadTag(s).size..], ReadTag(s).value, depth) == None
    ensures Records(s, depth) == [] && Parse(s, m, depth).args == m
    ensures Parse(s, m, depth).ok <==> EndsMessage(ReadTag(s).value)
  {
    hide ReadTag;
  }

  /** On every byte string, also one that fails to parse, the message ends up with the fields the string
      begins with, applied in order. */
  lemma {:induction false} ParseAppliesRecords(s: seq<byte>, m: Args, depth: nat)
    ensures Parse(s, m, depth).args == Applied(Records(s, depth), m)
    ensures AllWellFormed(Records(s, depth), depth)
    decreases |s|
  {
    var tag := ReadTag(s);
    hide Parse, Records, SkipField, ReadTag, Applied, AllWellFormed, Encode, Record.WellFormed;
    if EndsMessage(tag.value) || SkipField(s[tag.size..], tag.value, depth) == None {
      NoRecords(s, m, depth);
      AppliedNone(m, depth);
    } else {
      var n := SkipField(s[tag.size..], tag.value, depth).value;
      var r, rest := Record(s[..tag.size], s[tag.size..tag.size + n]), s[tag.size + n..];
      RecordAtFront(s, tag, n, depth);
      RecordsUnfold(s, tag, n, depth);
      ParseFront(s, tag, n, m, depth);
      ParseAppliesRecords(rest, Applied([r], m), depth);
      AppliedAppend([r], Records(rest, depth), m);
      EncodeCons(r, Records(rest, depth), depth);
    }
  }

  lemma AppliedNone(m: Args, depth: nat)
    ensures Applied([], m) == m && AllWellFormed([], depth)
  {
  }

  /** One round over the field in front, as its record says. */
  lemma ParseFront(s: seq<byte>, tag: Tag, n: nat, m: Args, depth: nat)
    requires ReadTag(s) == tag && tag.value != 0 && tag.value % 8 != END_GROUP
    requires SkipField(s[tag.size..], tag.value, depth) == Some(n)
    ensures var r := Record(s[..tag.size], s[tag.size..tag.size + n]);
            Parse(s, m, depth) == Parse(s[tag.size + n..], Applied([r], m), depth)
  {
    hide Parse, SkipField, ReadTag, Applied, Record.WellFormed;
    var r := Record(s[..tag.size], s[tag.size..tag.size + n]);
    RecordAtFront(s, tag, n, depth);
    ParseRecord(r, s[tag.size + n..], m, depth);
    assert s == r.tagBytes + r.payload + s[tag.size + n..];
  }

  lemma {:induction false} FieldsBeforeEnd(s: seq<byte>, m: Args, depth: nat) returns (tail: seq<byte>)
    requires Parse(s, m, depth).ok
    ensures s == Encode(Records(s, depth)) + tail && EndsMessage(ReadTag(tail).value)
    decreases |s|
  {
    var tag := ReadTag(s);
    hide Parse, Records, SkipField, ReadTag, Applied, Encode;
    if EndsMessage(tag.value) || SkipField(s[tag.size..], tag.value, depth) == None {
      NoRecords(s, m, depth);
      EncodeNone(s);
      tail := s;
    } else {
      var n := SkipField(s[tag.size..], tag.value, depth).value;
      var r, rest := Record(s[..tag.size], s[tag.size..tag.size + n]), s[tag.size + n..];
      RecordsUnfold(s, tag, n, depth);
      ParseFront(s, tag, n, m, depth);
      tail := FieldsBeforeEnd(rest, Applied([r], m), depth);
      EncodeCons(r, Records(rest, depth), depth);
      assert s == r.tagBytes + r.payload + rest;
    }
  }

  lemma EncodeNone(s: seq<byte>)
    ensures Encode([]) + s == s
  {
  }

  /** The whole accepted language: complete fields, and then the end, a zero or malformed tag, or one that
      ends a group; what follows it is left alone. */
  lemma ParseOkIff(s: seq<byte>, m: Args, depth: nat)
    ensures Parse(s, m, depth).ok <==>
      exists rs, tail :: AllWellFormed(rs, depth) && s == Encode(rs) + tail && EndsMessage(ReadTag(tail).value)
  {
    hide Parse, Records, ReadTag, AllWellFormed, Encode;
    if Parse(s, m, depth).ok {
      var tail := FieldsBeforeEnd(s, m, depth);
      ParseAppliesRecords(s, m, depth);
    }
    forall rs, tail | AllWellFormed(rs, depth) && s == Encode(rs) + tail && EndsMessage(ReadTag(tail).value)
      ensures Parse(s, m, depth).ok
    {
      ParseRecords(rs, tail, m, depth);
      ParseByTag(tail, Applied(rs, m), depth);
    }
  }

  // ----- writing -----

  function ArgRecord(i: nat, b: Bits): Record
    requires i < 5
  {
    Record([ArgTag(i)], LittleEndian32(b))
  }

  /** A zero argument is not written at all. */
  function ArgBytes(i: nat, b: Bits): seq<byte>
    requires i < 5
  {
    if NonZero(b) then [ArgTag(i)] + LittleEndian32(b) else []
  }

  /** The wire form of arguments i and up, in field order. */
  function SerializeFrom(m: Args, i: nat): seq<byte>
    requires i <= 5
    decreases 5 - i
  {
    if i == 5 then []
    else ArgBytes(i, m[i]) + SerializeFrom(m, i + 1)
  }

  function Serialize(m: Args): seq<byte> {
    SerializeFrom(m, 0)
  }

  function NonZeroCount(m: seq<Bits>): nat {
    if m == [] then 0 else (if NonZero(m[0]) then 1 else 0) + NonZeroCount(m[1..])
  }

  /** Merging takes over what the other message has set. */
  function Merged(m: Args, from: Args): Args {
    seq(5, i requires 0 <= i < 5 => if NonZero(from[i]) then from[i] else m[i])
  }

  /** Every pattern kept, except that -0.0 became +0.0. */
  function Canonical(m: Args): Args {
    seq(5, i requires 0 <= i < 5 => if m[i] == 0x8000_0000 then 0 else m[i])
  }

  function ArgRecords(m: Args, i: nat): (rs: seq<Record>)
    requires i <= 5
    decreases 5 - i
  {
    if i == 5 then [] else (if NonZero(m[i]) then [ArgRecord(i, m[i])] else []) + ArgRecords(m, i + 1)
  }

  predicate StrictlyIncreasing(rs: seq<Record>) {
    forall i, j | 0 <= i < j < |rs| :: rs[i].TagValue() < rs[j].TagValue()
  }

  lemma ArgRecordWellFormed(i: nat, b: Bits, depth: nat)
    requires i < 5
    ensures var r := ArgRecord(i, b);
            r.WellFormed(depth) && r.TagValue() == ArgTag(i) && FromLittleEndian32(r.payload) == b
  {
    LittleEndianRoundTrip(b);
  }

  lemma {:induction false} ArgRecordsStep(m: Args, i: nat, more: seq<Record>, depth: nat)
    requires i < 5 && NonZero(m[i]) && more == ArgRecords(m, i + 1)
    requires Encode(more) == SerializeFrom(m, i + 1)
    requires AllWellFormed(more, depth) && StrictlyIncreasing(more)
    requires forall r <- more :: ArgTag(i) < r.TagValue()
    ensures ArgRecords(m, i) == [ArgRecord(i, m[i])] + more
    ensures Encode(ArgRecords(m, i)) == SerializeFrom(m, i)
    ensures AllWellFormed(ArgRecords(m, i), depth) && StrictlyIncreasing(ArgRecords(m, i))
    ensures forall r <- ArgRecords(m, i) :: ArgTag(i) <= r.TagValue()
  {
    var r := ArgRecord(i, m[i]);
    ArgRecordWellFormed(i, m[i], depth);
    EncodeCons(r, more, depth);
    assert ArgRecords(m, i) == [r] + more;
    assert r.tagBytes + r.payload == [ArgTag(i)] + LittleEndian32(m[i]);
    assert SerializeFrom(m, i) == [ArgTag(i)] + LittleEndian32(m[i]) + SerializeFrom(m, i + 1);
    hide SkipField, ReadTag, ArgRecord, LittleEndian32, Record.TagValue, AllWellFormed, Encode;
    hide ArgRecords, SerializeFrom;
  }

  /** A serialization is a run of whole fields, in strictly increasing order. */
  lemma {:induction false} SerializeIsRecords(m: Args, i: nat, depth: nat)
    requires i <= 5
    ensures Encode(ArgRecords(m, i)) == SerializeFrom(m, i)
    ensures AllWellFormed(ArgRecords(m, i), depth) && StrictlyIncreasing(ArgRecords(m, i))
    ensures forall r <- ArgRecords(m, i) :: 8 * i + 13 <= r.TagValue()
    decreases 5 - i
  {
    if i < 5 {
      SerializeIsRecords(m, i + 1, depth);
      if NonZero(m[i]) {
        ArgRecordsStep(m, i, ArgRecords(m, i + 1), depth);
      } else {
        assert ArgRecords(m, i) == ArgRecords(m, i + 1) && SerializeFrom(m, i) == SerializeFrom(m, i + 1);
      }
    } else {
      assert ArgRecords(m, i) == [] && SerializeFrom(m, i) == [] == Encode([]);
    }
    hide ArgRecords, SerializeFrom, Encode, AllWellFormed, Record.TagValue;
  }

  /** It holds one field for every argument that is not zero, with that argument's value. */
  lemma {:induction false} ArgRecordsValue(m: Args, i: nat, k: nat, b: Bits)
    requires i <= 5 && k < 5
    ensures LastValue(ArgRecords(m, i), k, b) == if i <= k && NonZero(m[k]) then m[k] else b
    decreases 5 - i
  {
    if i == 5 {
      assert ArgRecords(m, i) == [];
    } else if NonZero(m[i]) {
      var r, more := ArgRecord(i, m[i]), ArgRecords(m, i + 1);
      ArgRecordWellFormed(i, m[i], 0);
      assert ArgRecords(m, i) == [r] + more;
      assert r.Sets(k) <==> i == k;
      LastValueCons(r, more, k, b);
      ArgRecordsValue(m, i + 1, k, if i == k then m[i] else b);
    } else {
      assert ArgRecords(m, i) == ArgRecords(m, i + 1);
      ArgRecordsValue(m, i + 1, k, b);
    }
    hide ArgRecords, LastValue, Record.Sets;
  }

  /** The serialization is the five arguments' bytes one after the other, here behind w. */
  lemma SerializeUnrolled(w: seq<byte>, m: Args)
    ensures w + Serialize(m) ==
            w + ArgBytes(0, m[0]) + ArgBytes(1, m[1]) + ArgBytes(2, m[2]) + ArgBytes(3, m[3]) + ArgBytes(4, m[4])
  {
    hide ArgBytes;
    SerializeAppended(w, m, 0);
    SerializeAppended(w + ArgBytes(0, m[0]), m, 1);
    SerializeAppended(w + ArgBytes(0, m[0]) + ArgBytes(1, m[1]), m, 2);
    SerializeAppended(w + ArgBytes(0, m[0]) + ArgBytes(1, m[1]) + ArgBytes(2, m[2]), m, 3);
    SerializeAppended(w + ArgBytes(0, m[0]) + ArgBytes(1, m[1]) + ArgBytes(2, m[2]) + ArgBytes(3, m[3]), m, 4);
  }

  lemma {:induction false} SerializeAppended(w: seq<byte>, m: Args, i: nat)
    requires i < 5
    ensures w + SerializeFrom(m, i) == w + ArgBytes(i, m[i]) + SerializeFrom(m, i + 1)
    ensures i == 4 ==> w + SerializeFrom(m, i) == w + ArgBytes(i, m[i])
  {
    hide ArgBytes;
    assert SerializeFrom(m, 5) == [];
  }

  lemma {:induction false} SerializeLength(m: Args, i: nat)
    requires i <= 5
    ensures |SerializeFrom(m, i)| == 5 * NonZeroCount(m[i..])
    ensures i == 0 ==> |Serialize(m)| == 5 * NonZeroCount(m)
    decreases 5 - i
  {
    if i < 5 {
      SerializeLength(m, i + 1);
      assert m[i..][1..] == m[i + 1..];
    }
  }

  // ----- the codec laws -----

  lemma ParseSerialized(a: Args, tail: seq<byte>, m: Args, depth: nat)
    ensures Parse(Serialize(a) + tail, m, depth) == Parse(tail, Merged(m, a), depth)
  {
    SerializeIsRecords(a, 0, depth);
    ParseRecords(ArgRecords(a, 0), tail, m, depth);
    forall i: nat | i < 5 {
      ArgRecordsValue(a, 0, i, m[i]);
    }
    assert Applied(ArgRecords(a, 0), m) == Merged(m, a);
  }

  /** Parsing what was written into a cleared message gives the message back, bit for bit except that
      -0.0 has become +0.0; the parse ends cleanly. */
  lemma RoundTrip(m: Args, depth: nat)
    ensures Parse(Serialize(m), CLEARED, depth) == Outcome(true, Canonical(m), 0, true, [])
  {
    assert Serialize(m) + [] == Serialize(m);
    ParseSerialized(m, [], CLEARED, depth);
    assert Merged(CLEARED, m) == Canonical(m);
  }

  /** Serialization loses the sign of zero and nothing else. */
  lemma SerializeInjective(a: Args, b: Args)
    ensures Serialize(a) == Serialize(b) <==> Canonical(a) == Canonical(b)
  {
    RoundTrip(a, 0);
    RoundTrip(b, 0);
    if Canonical(a) == Canonical(b) {
      SerializeCanonical(a, 0);
      SerializeCanonical(b, 0);
    }
  }

  lemma {:induction false} SerializeCanonical(a: Args, i: nat)
    requires i <= 5
    ensures SerializeFrom(Canonical(a), i) == SerializeFrom(a, i)
    decreases 5 - i
  {
    if i < 5 {
      SerializeCanonical(a, i + 1);
    }
  }

  /** Concatenation is merge. */
  lemma ConcatenationIsMerge(a: Args, b: Args, m: Args, depth: nat)
    ensures Parse(Serialize(a) + Serialize(b), m, depth) == Outcome(true, Merged(Merged(m, a), b), 0, true, [])
  {
    ParseSerialized(a, Serialize(b), m, depth);
    assert Serialize(b) + [] == Serialize(b);
    ParseSerialized(b, [], Merged(m, a), depth);
  }
}
