/** The fields of the protocol buffer wire format as a grammar of their own: what a varint, a tag and the
    payload of each wire type look like, without a parser. Skipping takes exactly what the grammar allows. */
module WireGrammar {
  import opened Basics
  import opened WireFormat

  // ----- varints and tags -----

  /** Groups of seven bits, least significant first; every byte but the last has its high bit set. */
  predicate IsVarint(s: seq<byte>) {
    && 1 <= |s| <= 10
    && s[|s| - 1] < 0x80
    && forall i | 0 <= i < |s| - 1 :: s[i] >= 0x80
  }

  function VarintValue(s: seq<byte>): nat {
    if s == [] then 0 else s[0] % 0x80 + 0x80 * VarintValue(s[1..])
  }

  function TagOf(s: seq<byte>): uint32 {
    VarintValue(s) % 0x1_0000_0000
  }

  /** A byte further on weighs 128 times as much. */
  lemma {:induction false} VarintValueAppend(s: seq<byte>, b: byte)
    ensures VarintValue(s + [b]) == VarintValue(s) + Weight(|s|) * (b % 0x80)
  {
    if s == [] {
      assert [b][1..] == [] && [] + [b] == [b];
    } else {
      assert (s + [b])[1..] == s[1..] + [b];
      VarintValueAppend(s[1..], b);
      WeighsMore(Weight(|s| - 1), b % 0x80);
    }
  }

  function Weight(k: nat): nat {
    if k == 0 then 1 else 0x80 * Weight(k - 1)
  }

  lemma WeighsMore(w: nat, d: nat)
    ensures 0x80 * (w * d) == (0x80 * w) * d
  {
  }

  lemma {:induction false} VarintDecodes(bytes: seq<byte>, rest: seq<byte>, room: nat)
    requires IsVarint(bytes) && |bytes| <= room
    ensures DecodeVarint(bytes + rest, room) == Varint(VarintValue(bytes), |bytes|)
  {
    assert (bytes + rest)[0] == bytes[0];
    if |bytes| > 1 {
      VarintDecodes(bytes[1..], rest, room - 1);
      assert (bytes + rest)[1..] == bytes[1..] + rest;
    } else {
      assert bytes[1..] == [];
    }
  }

  lemma {:induction false} DecodedIsVarint(s: seq<byte>, room: nat)
    requires room <= 10 && DecodeVarint(s, room).Varint?
    ensures var v := DecodeVarint(s, room);
            v.size <= room && IsVarint(s[..v.size]) && VarintValue(s[..v.size]) == v.value
  {
    var size := DecodeVarint(s, room).size;
    if s[0] >= 0x80 {
      DecodedIsVarint(s[1..], room - 1);
      assert s[..size][1..] == s[1..][..size - 1];
    } else {
      assert s[..1][1..] == [];
    }
  }

  lemma VarintInFront(bytes: seq<byte>, s: seq<byte>)
    requires IsVarint(bytes) && bytes <= s
    ensures DecodeVarint(s, 10) == Varint(VarintValue(bytes), |bytes|)
  {
    VarintDecodes(bytes, s[|bytes|..], 10);
    assert s == bytes + s[|bytes|..];
    hide *;
  }

  /** A varint is read off the front of a byte string if and only if one stands there. */
  lemma DecodeVarintIff(s: seq<byte>, value: nat, size: nat)
    ensures DecodeVarint(s, 10) == Varint(value, size) <==>
              size <= |s| && IsVarint(s[..size]) && value == VarintValue(s[..size])
  {
    hide DecodeVarint, VarintValue;
    if DecodeVarint(s, 10) == Varint(value, size) {
      DecodedIsVarint(s, 10);
    }
    if size <= |s| && IsVarint(s[..size]) {
      VarintInFront(s[..size], s);
    }
  }

  /** A tag is the varint in front, as far as it fits 32 bits. */
  lemma TagDecodes(bytes: seq<byte>, rest: seq<byte>)
    requires IsVarint(bytes)
    ensures ReadTag(bytes + rest) == Tag(TagOf(bytes), |bytes|, false)
  {
    VarintDecodes(bytes, rest, 10);
  }

  /** Without one in front there is no tag. */
  lemma NoTagIff(s: seq<byte>)
    ensures ReadTag(s).size == 0 <==> forall n: nat | n <= |s| :: !IsVarint(s[..n])
    ensures ReadTag(s).size == 0 ==> ReadTag(s) == Tag(0, 0, s == [])
  {
    forall n: nat | n <= |s| && IsVarint(s[..n]) ensures ReadTag(s).size == n {
      TagDecodes(s[..n], s[n..]);
      assert s == s[..n] + s[n..];
    }
    if ReadTag(s).size != 0 {
      DecodedIsVarint(s, 10);
    }
  }

  lemma TagIsVarint(s: seq<byte>)
    requires ReadTag(s).value != 0
    ensures var t := ReadTag(s);
            IsVarint(s[..t.size]) && t.value == TagOf(s[..t.size]) && !t.atEnd
  {
    DecodedIsVarint(s, 10);
    hide IsVarint, VarintValue, DecodeVarint;
  }

  /** What is written for a value is its one shortest varint. */
  lemma {:induction false} EncodeIsShortest(v: nat, s: seq<byte>)
    requires IsVarint(s) && VarintValue(s) == v
    ensures |EncodeVarint(v)| <= |s|
    ensures |s| == |EncodeVarint(v)| ==> s == EncodeVarint(v)
    decreases v
  {
    assert s == [s[0]] + s[1..];
    if |s| == 1 {
      assert s[1..] == [];
    } else if v >= 0x80 {
      EncodeIsShortest(v / 0x80, s[1..]);
    }
  }

  lemma {:induction false} EncodeIsVarint(v: uint32)
    ensures IsVarint(EncodeVarint(v)) && VarintValue(EncodeVarint(v)) == v == TagOf(EncodeVarint(v))
  {
    TagLength(v);
    VarintRoundTrip(v, [], 10);
    var s := EncodeVarint(v);
    assert s + [] == s && s[..|s|] == s;
    DecodedIsVarint(s, 10);
    hide EncodeVarint, VarintValue, DecodeVarint, IsVarint;
  }

  // ----- words -----

  /** The number some bytes spell, least significant byte first. */
  function BytesValue(s: seq<byte>): nat {
    if s == [] then 0 else s[0] + 0x100 * BytesValue(s[1..])
  }

  lemma WordIsBytes(s: seq<byte>)
    requires |s| == 4
    ensures FromLittleEndian32(s) == BytesValue(s)
  {
    assert BytesValue(s) == s[0] + 0x100 * BytesValue(s[1..]);
    assert BytesValue(s[1..]) == s[1] + 0x100 * BytesValue(s[2..]);
    assert BytesValue(s[2..]) == s[2] + 0x100 * BytesValue(s[3..]);
    assert BytesValue(s[3..]) == s[3];
  }

  // ----- payloads -----

  /** The payload of a field by its wire type; a group is itself a run of fields. */
  datatype Payload =
    | VarintPayload(bytes: seq<byte>)
    | EightBytes(bytes: seq<byte>)
    | Delimited(length: seq<byte>, content: seq<byte>)
    | Group(fields: Fields)
    | FourBytes(bytes: seq<byte>)

  datatype Fields =
    | End(tag: seq<byte>)
    | More(tag: seq<byte>, payload: Payload, rest: Fields)

  function PayloadBytes(p: Payload): seq<byte> {
    match p
    case VarintPayload(bytes) => bytes
    case EightBytes(bytes) => bytes
    case Delimited(length, content) => length + content
    case Group(fields) => FieldsBytes(fields)
    case FourBytes(bytes) => bytes
  }

  function FieldsBytes(fs: Fields): seq<byte> {
    match fs
    case End(tag) => tag
    case More(tag, payload, rest) => tag + PayloadBytes(payload) + FieldsBytes(rest)
  }

  /** A payload that may follow the tag, with groups nested at most `depth` deep. A group is closed by the
      tag one above the one that opened it. */
  predicate Fits(p: Payload, tag: uint32, depth: nat) {
    match p
    case VarintPayload(bytes) => tag % 8 == 0 && IsVarint(bytes)
    case EightBytes(bytes) => tag % 8 == 1 && |bytes| == 8
    case Delimited(length, content) =>
      tag % 8 == 2 && IsVarint(length) && TagOf(length) == |content| && |content| < 0x8000_0000
    case Group(fields) => tag % 8 == 3 && depth > 0 && FieldsFit(fields, tag + 1, depth - 1)
    case FourBytes(bytes) => tag % 8 == 5 && |bytes| == 4
  }

  predicate FieldsFit(fs: Fields, endTag: nat, depth: nat) {
    match fs
    case End(tag) => IsVarint(tag) && TagOf(tag) == endTag
    case More(tag, payload, rest) =>
      IsVarint(tag) && TagOf(tag) != 0 && Fits(payload, TagOf(tag), depth) && FieldsFit(rest, endTag, depth)
  }

  // ----- skipping is the grammar -----

  lemma {:induction false} FlatSkips(p: Payload, s: seq<byte>, tag: uint32, depth: nat)
    requires Fits(p, tag, depth) && PayloadBytes(p) <= s && !p.Group? && !p.Delimited?
    ensures SkipField(s, tag, depth) == Some(|PayloadBytes(p)|)
  {
    hide SkipGroup, DecodeVarint, VarintValue, IsVarint;
    if p.VarintPayload? {
      VarintInFront(p.bytes, s);
    }
  }

  lemma {:induction false} DelimitedSkips(p: Payload, s: seq<byte>, tag: uint32, depth: nat)
    requires Fits(p, tag, depth) && PayloadBytes(p) <= s && p.Delimited?
    ensures SkipField(s, tag, depth) == Some(|PayloadBytes(p)|)
  {
    hide SkipGroup, DecodeVarint, VarintValue, IsVarint;
    assert p.length <= s;
    VarintInFront(p.length, s);
  }

  lemma {:induction false} GroupSkips(s: seq<byte>, tag: uint32, depth: nat)
    requires tag % 8 == 3 && depth > 0
    ensures tag + 1 < 0x1_0000_0000 && (tag + 1) % 8 == END_GROUP
    ensures SkipField(s, tag, depth) == SkipGroup(s, tag + 1, depth - 1)
  {
    hide SkipGroup, DecodeVarint;
  }

  lemma {:induction false} PayloadSkips(p: Payload, s: seq<byte>, tag: uint32, depth: nat)
    requires Fits(p, tag, depth) && PayloadBytes(p) <= s
    ensures SkipField(s, tag, depth) == Some(|PayloadBytes(p)|)
    decreases p
  {
    hide SkipField, SkipGroup, IsVarint, FieldsBytes, FieldsFit;
    match p {
      case Group(fields) =>
        GroupSkips(s, tag, depth);
        FieldsSkip(fields, s, tag + 1, depth - 1);
      case Delimited(_, _) => DelimitedSkips(p, s, tag, depth);
      case _ => FlatSkips(p, s, tag, depth);
    }
  }

  lemma {:induction false} FieldsSkip(fs: Fields, s: seq<byte>, endTag: uint32, depth: nat)
    requires FieldsFit(fs, endTag, depth) && endTag % 8 == END_GROUP && FieldsBytes(fs) <= s
    ensures SkipGroup(s, endTag, depth) == Some(|FieldsBytes(fs)|)
    decreases fs
  {
    hide SkipGroup, SkipField, ReadTag, IsVarint;
    TagDecodes(fs.tag, s[|fs.tag|..]);
    assert s == fs.tag + s[|fs.tag|..];
    match fs {
      case End(tag) => SkipGroupEnd(s, endTag, depth);
      case More(tag, payload, rest) =>
        var n := |PayloadBytes(payload)|;
        assert PayloadBytes(payload) <= s[|tag|..];
        assert FieldsBytes(rest) <= s[|tag| + n..];
        PayloadSkips(payload, s[|tag|..], TagOf(tag), depth);
        FieldsSkip(rest, s[|tag| + n..], endTag, depth);
        WireTypes(payload, TagOf(tag), depth);
        SkipGroupStep(s, ReadTag(s), n, endTag, depth);
    }
  }

  lemma WireTypes(p: Payload, tag: uint32, depth: nat)
    requires Fits(p, tag, depth)
    ensures tag % 8 < 6 && tag % 8 != END_GROUP
  {
  }

  lemma {:induction false} SkippedPayload(s: seq<byte>, tag: uint32, depth: nat) returns (p: Payload)
    requires SkipField(s, tag, depth).Some?
    ensures Fits(p, tag, depth) && PayloadBytes(p) == s[..SkipField(s, tag, depth).value]
    decreases |s|, 1
  {
    hide SkipGroup, DecodeVarint, IsVarint, VarintValue;
    var n := SkipField(s, tag, depth).value;
    match tag % 8 {
      case 0 =>
        DecodedIsVarint(s, 10);
        p := VarintPayload(s[..n]);
      case 1 => p := EightBytes(s[..8]);
      case 2 =>
        DecodedIsVarint(s, 10);
        var size := DecodeVarint(s, 10).size;
        p := Delimited(s[..size], s[size..n]);
        assert s[..n] == s[..size] + s[size..n];
      case 3 =>
        var fields := SkippedFields(s, tag + 1, depth - 1);
        p := Group(fields);
      case 5 => p := FourBytes(s[..4]);
    }
  }

  lemma {:induction false} SkippedFields(s: seq<byte>, endTag: uint32, depth: nat) returns (fs: Fields)
    requires SkipGroup(s, endTag, depth).Some?
    ensures FieldsFit(fs, endTag, depth) && FieldsBytes(fs) == s[..SkipGroup(s, endTag, depth).value]
    decreases |s|, 0
  {
    hide SkipField, SkipGroup, ReadTag, IsVarint, VarintValue;
    var tag := ReadTag(s);
    SkipGroupParts(s, endTag, depth);
    TagIsVarint(s);
    if tag.value % 8 == END_GROUP {
      fs := End(s[..tag.size]);
    } else {
      var n := SkipField(s[tag.size..], tag.value, depth).value;
      var payload := SkippedPayload(s[tag.size..], tag.value, depth);
      var rest := SkippedFields(s[tag.size + n..], endTag, depth);
      fs := More(s[..tag.size], payload, rest);
      var m := SkipGroup(s[tag.size + n..], endTag, depth).value;
      ThreeParts(s, tag.size, n, m);
    }
  }

  lemma ThreeParts(s: seq<byte>, a: nat, b: nat, c: nat)
    requires a + b + c <= |s|
    ensures s[..a + b + c] == s[..a] + s[a..][..b] + s[a + b..][..c]
  {
  }

  /** A field is skipped if and only if a payload of its wire type stands behind the tag, and then exactly
      that payload is skipped. */
  lemma SkipFieldIff(s: seq<byte>, tag: uint32, depth: nat, n: nat)
    ensures SkipField(s, tag, depth) == Some(n) <==>
              n <= |s| && exists p :: Fits(p, tag, depth) && PayloadBytes(p) == s[..n]
  {
    hide SkipField, Fits, PayloadBytes;
    if SkipField(s, tag, depth) == Some(n) {
      var p := SkippedPayload(s, tag, depth);
    }
    if n <= |s| {
      forall p | Fits(p, tag, depth) && PayloadBytes(p) == s[..n] ensures SkipField(s, tag, depth) == Some(n) {
        PayloadSkips(p, s, tag, depth);
      }
    }
  }
}
