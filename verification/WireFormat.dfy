/** The protocol buffer wire format as the Sensor parser meets it: base-128 varints, tags, little-endian
    words, and the skipping of fields the message does not know. Everything reads a byte sequence from
    its front, so that a parser position is simply the sequence of bytes still to come. */
module WireFormat {
  import opened Basics

  type uint32 = x: int | 0 <= x < 0x1_0000_0000

  const END_GROUP := 4

  // ----- little-endian words -----

  function LittleEndian32(x: uint32): (s: seq<byte>)
    ensures |s| == 4
  {
    [x % 256, x / 256 % 256, x / 0x1_0000 % 256, x / 0x100_0000]
  }

  function FromLittleEndian32(s: seq<byte>): uint32
    requires |s| == 4
  {
    s[0] as int + 256 * (s[1] as int) + 0x1_0000 * (s[2] as int) + 0x100_0000 * (s[3] as int)
  }

  lemma LittleEndianRoundTrip(x: uint32)
    ensures FromLittleEndian32(LittleEndian32(x)) == x
  {
    var low, high := x % 0x1_0000, x / 0x1_0000;
    assert low == x % 256 + 256 * (x / 256 % 256);
    assert high == high % 256 + 256 * (high / 256) && x / 0x100_0000 == high / 256;
  }

  // ----- varints and tags -----

  datatype Varint = Malformed | Varint(value: nat, size: nat)

  /** The varint at the front of s, spending at most `room` bytes on it. */
  function DecodeVarint(s: seq<byte>, room: nat): (v: Varint)
    ensures v.Varint? ==> 1 <= v.size <= |s|
  {
    if room == 0 || s == [] then Malformed
    else if s[0] < 0x80 then Varint(s[0], 1)
    else
      match DecodeVarint(s[1..], room - 1)
      case Malformed => Malformed
      case Varint(high, size) => Varint(s[0] - 0x80 + 0x80 * high, size + 1)
  }

  /** The shortest varint of a value. */
  function EncodeVarint(v: nat): (s: seq<byte>)
    ensures |s| >= 1
  {
    if v < 0x80 then [v] else [0x80 + v % 0x80] + EncodeVarint(v / 0x80)
  }

  lemma {:induction false} VarintRoundTrip(v: nat, rest: seq<byte>, room: nat)
    requires |EncodeVarint(v)| <= room
    ensures DecodeVarint(EncodeVarint(v) + rest, room) == Varint(v, |EncodeVarint(v)|)
    decreases v
  {
    if v >= 0x80 {
      VarintRoundTrip(v / 0x80, rest, room - 1);
      assert (EncodeVarint(v) + rest)[1..] == EncodeVarint(v / 0x80) + rest;
    }
  }

  /** What reading a tag yields: 0 stands for "no valid tag", and atEnd tells the end of the input from a
      malformed or a literal zero. */
  datatype Tag = Tag(value: uint32, size: nat, atEnd: bool)

  function ReadTag(s: seq<byte>): (t: Tag)
    ensures t.size <= |s|
    ensures t.value != 0 ==> 1 <= t.size
    ensures t.atEnd <==> s == []
  {
    if s == [] then Tag(0, 0, true)
    else
      match DecodeVarint(s, 10)
      case Malformed => Tag(0, 0, false)
      case Varint(value, size) => Tag(value % 0x1_0000_0000, size, false)
  }

  lemma {:induction false} DecodeVarintLocal(s: seq<byte>, t: seq<byte>, room: nat)
    requires DecodeVarint(s, room).Varint?
    ensures DecodeVarint(s + t, room) == DecodeVarint(s, room)
    ensures DecodeVarint(s[..DecodeVarint(s, room).size], room) == DecodeVarint(s, room)
  {
    if s[0] >= 0x80 {
      DecodeVarintLocal(s[1..], t, room - 1);
      var size := DecodeVarint(s, room).size;
      assert (s + t)[1..] == s[1..] + t;
      assert s[..size][1..] == s[1..][..size - 1];
    }
  }

  lemma ReadTagLocal(s: seq<byte>, t: seq<byte>)
    requires ReadTag(s).value != 0
    ensures ReadTag(s + t) == ReadTag(s)
    ensures ReadTag(s[..ReadTag(s).size]) == ReadTag(s)
  {
    DecodeVarintLocal(s, t, 10);
  }

  lemma {:induction false} TagLength(tag: uint32)
    ensures |EncodeVarint(tag)| <= 5
  {
    var a, b, c, d := tag / 0x80, tag / 0x80 / 0x80, tag / 0x80 / 0x80 / 0x80, tag / 0x80 / 0x80 / 0x80 / 0x80;
    assert d < 0x10;
    assert |EncodeVarint(d)| == 1;
    assert |EncodeVarint(c)| <= 2;
    assert |EncodeVarint(b)| <= 3;
    assert |EncodeVarint(a)| <= 4;
  }

  /** A tag reads back as what was written, whatever follows. */
  lemma TagRoundTrip(tag: uint32, rest: seq<byte>)
    ensures ReadTag(EncodeVarint(tag) + rest) == Tag(tag, |EncodeVarint(tag)|, false)
  {
    TagLength(tag);
    VarintRoundTrip(tag, rest, 10);
  }

  // ----- skipping -----

  /** The number of payload bytes to skip after `tag`, or None when the payload is malformed, cut short or
      nested deeper than `depth` groups. */
  function SkipField(s: seq<byte>, tag: uint32, depth: nat): (n: Option<nat>)
    ensures n.Some? ==> n.value <= |s|
    decreases |s|, 1
  {
    match tag % 8
    case 0 =>
      var v := DecodeVarint(s, 10);
      if v.Malformed? then None else Some(v.size)
    case 1 => if 8 <= |s| then Some(8) else None
    case 2 =>
      var v := DecodeVarint(s, 10);
      if v.Malformed? then None
      else
        var length := v.value % 0x1_0000_0000;
        if length < 0x8000_0000 && v.size + length <= |s| then Some(v.size + length) else None
    case 3 => if depth == 0 then None else SkipGroup(s, tag / 8 * 8 + END_GROUP, depth - 1)
    case 5 => if 4 <= |s| then Some(4) else None
    case _ => None
  }

  /** The number of bytes up to and including the end-group tag that closes the current group. */
  function SkipGroup(s: seq<byte>, endTag: uint32, depth: nat): (n: Option<nat>)
    ensures n.Some? ==> n.value <= |s|
    decreases |s|, 0
  {
    var t := ReadTag(s);
    if t.value == 0 then None
    else if t.value % 8 == END_GROUP then
      if t.value == endTag then Some(t.size) else None
    else
      match SkipField(s[t.size..], t.value, depth)
      case None => None
      case Some(payload) =>
        match SkipGroup(s[t.size + payload..], endTag, depth)
        case None => None
        case Some(rest) => Some(t.size + payload + rest)
  }

  lemma {:induction false} SkipGroupStep(s: seq<byte>, tag: Tag, payload: nat, endTag: uint32, depth: nat)
    requires ReadTag(s) == tag && tag.value != 0 && tag.value % 8 != END_GROUP
    requires SkipField(s[tag.size..], tag.value, depth) == Some(payload)
    ensures SkipGroup(s, endTag, depth) ==
            match SkipGroup(s[tag.size + payload..], endTag, depth)
            case None => None
            case Some(rest) => Some(tag.size + payload + rest)
  {
    hide SkipField, ReadTag;
  }

  lemma {:induction false} SkipGroupEnd(s: seq<byte>, endTag: uint32, depth: nat)
    requires ReadTag(s).value == endTag && endTag != 0 && endTag % 8 == END_GROUP
    ensures SkipGroup(s, endTag, depth) == Some(ReadTag(s).size)
  {
    hide SkipField, ReadTag;
  }

  /** What a group that can be skipped begins with: its end, or a field and the rest of the group. */
  lemma {:induction false} SkipGroupParts(s: seq<byte>, endTag: uint32, depth: nat)
    requires SkipGroup(s, endTag, depth).Some?
    ensures var tag := ReadTag(s);
            && tag.value != 0
            && (tag.value % 8 == END_GROUP ==> tag.value == endTag && SkipGroup(s, endTag, depth) == Some(tag.size))
            && (tag.value % 8 != END_GROUP ==>
                  && SkipField(s[tag.size..], tag.value, depth).Some?
                  && var payload := SkipField(s[tag.size..], tag.value, depth).value;
                  && SkipGroup(s[tag.size + payload..], endTag, depth).Some?
                  && SkipGroup(s, endTag, depth).value
                     == tag.size + payload + SkipGroup(s[tag.size + payload..], endTag, depth).value)
  {
    hide SkipField, ReadTag;
  }

  /** Skipping looks at no byte behind those it skips. */
  lemma {:induction false} SkipFieldExtends(s: seq<byte>, t: seq<byte>, tag: uint32, depth: nat)
    requires SkipField(s, tag, depth).Some?
    ensures SkipField(s + t, tag, depth) == SkipField(s, tag, depth)
    decreases |s|, 1
  {
    hide SkipGroup, DecodeVarint;
    match tag % 8 {
      case 0 => DecodeVarintLocal(s, t, 10);
      case 2 => DecodeVarintLocal(s, t, 10);
      case 3 => SkipGroupExtends(s, t, tag / 8 * 8 + END_GROUP, depth - 1);
      case _ =>
    }
  }

  lemma {:induction false} SkipGroupExtends(s: seq<byte>, t: seq<byte>, endTag: uint32, depth: nat)
    requires SkipGroup(s, endTag, depth).Some?
    ensures SkipGroup(s + t, endTag, depth) == SkipGroup(s, endTag, depth)
    decreases |s|, 0
  {
    hide SkipField, SkipGroup, ReadTag;
    var tag := ReadTag(s);
    SkipGroupParts(s, endTag, depth);
    ReadTagLocal(s, t);
    if tag.value % 8 == END_GROUP {
      SkipGroupEnd(s + t, endTag, depth);
    } else {
      var payload := SkipField(s[tag.size..], tag.value, depth).value;
      SkipFieldExtends(s[tag.size..], t, tag.value, depth);
      SkipGroupExtends(s[tag.size + payload..], t, endTag, depth);
      SkipGroupStepExtends(s, t, tag, payload, endTag, depth);
    }
  }

  lemma {:induction false} SkipGroupStepExtends(s: seq<byte>, t: seq<byte>, tag: Tag, payload: nat,
                                                endTag: uint32, depth: nat)
    requires tag == ReadTag(s) == ReadTag(s + t) && tag.value != 0 && tag.value % 8 != END_GROUP
    requires Some(payload) == SkipField(s[tag.size..], tag.value, depth)
                           == SkipField(s[tag.size..] + t, tag.value, depth)
    requires SkipGroup(s[tag.size + payload..] + t, endTag, depth) == SkipGroup(s[tag.size + payload..], endTag, depth)
    ensures SkipGroup(s + t, endTag, depth) == SkipGroup(s, endTag, depth)
  {
    hide SkipField, ReadTag, SkipGroup;
    assert (s + t)[tag.size..] == s[tag.size..] + t;
    assert (s + t)[tag.size + payload..] == s[tag.size + payload..] + t;
    SkipGroupStep(s, tag, payload, endTag, depth);
    SkipGroupStep(s + t, tag, payload, endTag, depth);
  }

  /** The bytes skipped are a field on their own: cutting the input off behind them changes nothing. */
  lemma {:induction false} SkipFieldCut(s: seq<byte>, tag: uint32, depth: nat)
    requires SkipField(s, tag, depth).Some?
    ensures SkipField(s[..SkipField(s, tag, depth).value], tag, depth) == SkipField(s, tag, depth)
    decreases |s|, 1
  {
    hide SkipGroup, DecodeVarint;
    var n := SkipField(s, tag, depth).value;
    match tag % 8 {
      case 0 => DecodeVarintLocal(s, [], 10);
      case 2 =>
        var v := DecodeVarint(s, 10);
        DecodeVarintLocal(s, [], 10);
        DecodeVarintLocal(s[..v.size], s[v.size..n], 10);
        assert s[..n] == s[..v.size] + s[v.size..n];
      case 3 => SkipGroupCut(s, tag / 8 * 8 + END_GROUP, depth - 1);
      case _ =>
    }
  }

  lemma {:induction false} SkipGroupCut(s: seq<byte>, endTag: uint32, depth: nat)
    requires SkipGroup(s, endTag, depth).Some?
    ensures SkipGroup(s[..SkipGroup(s, endTag, depth).value], endTag, depth) == SkipGroup(s, endTag, depth)
    decreases |s|, 0
  {
    hide SkipField, SkipGroup, ReadTag;
    var n, tag := SkipGroup(s, endTag, depth).value, ReadTag(s);
    SkipGroupParts(s, endTag, depth);
    ReadTagCut(s, n);
    if tag.value % 8 == END_GROUP {
      SkipGroupEnd(s[..n], endTag, depth);
    } else {
      var payload := SkipField(s[tag.size..], tag.value, depth).value;
      SkipFieldCut(s[tag.size..], tag.value, depth);
      SkipGroupCut(s[tag.size + payload..], endTag, depth);
      SkipGroupStepCut(s, n, tag, payload, endTag, depth);
    }
  }

  lemma ReadTagCut(s: seq<byte>, n: nat)
    requires ReadTag(s).value != 0 && ReadTag(s).size <= n <= |s|
    ensures ReadTag(s[..n]) == ReadTag(s)
  {
    var size := ReadTag(s).size;
    ReadTagLocal(s, []);
    ReadTagLocal(s[..size], s[size..n]);
    assert s[..n] == s[..size] + s[size..n];
  }

  lemma {:induction false} SkipGroupStepCut(s: seq<byte>, n: nat, tag: Tag, payload: nat, endTag: uint32, depth: nat)
    requires tag.size + payload <= n <= |s|
    requires tag == ReadTag(s) == ReadTag(s[..n]) && tag.value != 0 && tag.value % 8 != END_GROUP
    requires SkipField(s[tag.size..][..payload], tag.value, depth) == Some(payload)
    requires SkipGroup(s[tag.size + payload..][..n - tag.size - payload], endTag, depth) == Some(n - tag.size - payload)
    ensures SkipGroup(s[..n], endTag, depth) == Some(n)
  {
    hide SkipField, ReadTag, SkipGroup;
    var start, rest := s[tag.size..][..payload], s[tag.size + payload..n];
    SkipFieldExtends(start, rest, tag.value, depth);
    assert s[..n][tag.size..] == start + rest;
    assert s[..n][tag.size + payload..] == s[tag.size + payload..][..n - tag.size - payload];
    SkipGroupStep(s[..n], tag, payload, endTag, depth);
  }
}
