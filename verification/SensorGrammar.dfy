/** The Sensor message in terms of the wire grammar: which byte strings are its fields, what each field
    does to the message, and the bytes it is written as. */
module SensorGrammar {
  import opened Basics
  import opened WireFormat
  import opened WireGrammar
  import opened SensorMessage

  /** A field is complete if and only if its tag is a varint other than 0 and its payload is one of the
      grammar for that tag. */
  lemma RecordIff(r: Record, depth: nat)
    ensures r.WellFormed(depth) <==>
              && IsVarint(r.tagBytes) && TagOf(r.tagBytes) != 0
              && exists p :: Fits(p, TagOf(r.tagBytes), depth) && PayloadBytes(p) == r.payload
  {
    hide SkipField, ReadTag, IsVarint, TagOf, PayloadBytes, Fits;
    if r.WellFormed(depth) {
      TagIsVarint(r.tagBytes);
      assert r.tagBytes[..|r.tagBytes|] == r.tagBytes;
      SkipFieldIff(r.payload, r.TagValue(), depth, |r.payload|);
      assert r.payload[..|r.payload|] == r.payload;
    }
    if IsVarint(r.tagBytes) && TagOf(r.tagBytes) != 0 {
      TagDecodes(r.tagBytes, []);
      assert r.tagBytes + [] == r.tagBytes;
      forall p | Fits(p, TagOf(r.tagBytes), depth) && PayloadBytes(p) == r.payload ensures r.WellFormed(depth) {
        WireTypes(p, TagOf(r.tagBytes), depth);
        PayloadSkips(p, r.payload, r.TagValue(), depth);
      }
    }
  }

  lemma FieldRecord(tag: seq<byte>, p: Payload, depth: nat) returns (r: Record)
    requires IsVarint(tag) && TagOf(tag) != 0 && Fits(p, TagOf(tag), depth)
    ensures r == Record(tag, PayloadBytes(p)) && r.WellFormed(depth) && r.TagValue() == TagOf(tag)
  {
    r := Record(tag, PayloadBytes(p));
    RecordIff(r, depth);
    TagDecodes(tag, []);
    assert tag + [] == tag;
    hide IsVarint, TagOf, PayloadBytes, Fits, SkipField, ReadTag;
  }

  /** A field the message does not know is skipped whole, whatever it holds and however its tag is spelt. */
  lemma UnknownField(tag: seq<byte>, p: Payload, tail: seq<byte>, m: Args, depth: nat)
    requires IsVarint(tag) && TagOf(tag) != 0 && Fits(p, TagOf(tag), depth)
    requires TagOf(tag) !in {0x0D, 0x15, 0x1D, 0x25, 0x2D}
    ensures Parse(tag + PayloadBytes(p) + tail, m, depth) == Parse(tail, m, depth)
  {
    hide IsVarint, TagOf, PayloadBytes, Fits, Parse, SkipField, ReadTag, Applied;
    var r := FieldRecord(tag, p, depth);
    ParseRecord(r, tail, m, depth);
    AppliedOne(r, m, depth);
  }

  /** A field with the tag of an argument sets that argument to the number its four bytes spell. */
  lemma ArgField(i: nat, tag: seq<byte>, bytes: seq<byte>, tail: seq<byte>, m: Args, depth: nat)
    requires i < 5 && IsVarint(tag) && TagOf(tag) == [0x0D, 0x15, 0x1D, 0x25, 0x2D][i] && |bytes| == 4
    ensures BytesValue(bytes) < 0x1_0000_0000
    ensures Parse(tag + bytes + tail, m, depth) == Parse(tail, m[i := BytesValue(bytes)], depth)
  {
    WordIsBytes(bytes);
    hide IsVarint, TagOf, Parse, SkipField, ReadTag, Applied, BytesValue, FromLittleEndian32;
    var r := FieldRecord(tag, FourBytes(bytes), depth);
    ParseRecord(r, tail, m, depth);
    AppliedOne(r, m, depth);
  }

  /** A tag of 0, or one that ends a group, ends the message in front of what follows. */
  lemma EndTag(tag: seq<byte>, rest: seq<byte>, m: Args, depth: nat)
    requires IsVarint(tag) && (TagOf(tag) == 0 || TagOf(tag) % 8 == 4)
    ensures Parse(tag + rest, m, depth) == Outcome(true, m, TagOf(tag), false, rest)
  {
    hide IsVarint, TagOf, Parse, SkipField, ReadTag;
    TagDecodes(tag, rest);
    ParseByTag(tag + rest, m, depth);
  }

  /** So does a place where no tag stands; it is a legitimate end only at the end of the input. */
  lemma NoTagEnds(s: seq<byte>, m: Args, depth: nat)
    requires forall n: nat | n <= |s| :: !IsVarint(s[..n])
    ensures Parse(s, m, depth) == Outcome(true, m, 0, s == [], s)
  {
    hide IsVarint, Parse, SkipField, ReadTag;
    NoTagIff(s);
    ParseByTag(s, m, depth);
  }

  /** A field whose payload is not there in full, or is none of the grammar, fails the parse. */
  lemma BadPayload(tag: seq<byte>, s: seq<byte>, m: Args, depth: nat)
    requires IsVarint(tag) && TagOf(tag) != 0 && TagOf(tag) % 8 != 4
    requires forall n: nat, p | n <= |s| && PayloadBytes(p) == s[..n] :: !Fits(p, TagOf(tag), depth)
    ensures !Parse(tag + s, m, depth).ok && Parse(tag + s, m, depth).args == m
  {
    hide IsVarint, TagOf, Parse, SkipField, ReadTag, PayloadBytes, Fits;
    TagDecodes(tag, s);
    if SkipField(s, TagOf(tag), depth).Some? {
      SkipFieldIff(s, TagOf(tag), depth, SkipField(s, TagOf(tag), depth).value);
    }
    NoRecords(tag + s, m, depth);
  }

  /** A message without zeros takes 25 bytes: five times a tag, 0D, 15, 1D, 25 and 2D in this order, and
      behind it the argument, least significant byte first. */
  lemma FullFrame(m: Args)
    requires forall b <- m :: b != 0 && b != 0x8000_0000
    ensures |Serialize(m)| == 25
    ensures forall i | 0 <= i < 5 :: Serialize(m)[5 * i] == [0x0D, 0x15, 0x1D, 0x25, 0x2D][i]
    ensures forall i | 0 <= i < 5 :: BytesValue(Serialize(m)[5 * i + 1..5 * i + 5]) == m[i]
  {
    SerializeUnrolled([], m);
    forall i: nat | i < 5 ensures FrameOf(i, ArgBytes(i, m[i]), m[i]) {
      assert m[i] in m;
      ArgBytesFrame(i, m[i]);
    }
    hide Serialize, ArgBytes, BytesValue;
    FiveFrames(Serialize(m), ArgBytes(0, m[0]), ArgBytes(1, m[1]), ArgBytes(2, m[2]), ArgBytes(3, m[3]),
               ArgBytes(4, m[4]), m);
  }

  predicate FrameOf(i: nat, s: seq<byte>, b: Bits) {
    |s| == 5 && s[0] == 8 * i + 13 && BytesValue(s[1..5]) == b
  }

  lemma ArgBytesFrame(i: nat, b: Bits)
    requires i < 5 && b != 0 && b != 0x8000_0000
    ensures FrameOf(i, ArgBytes(i, b), b)
  {
    LittleEndianRoundTrip(b);
    WordIsBytes(LittleEndian32(b));
    assert ArgBytes(i, b)[1..5] == LittleEndian32(b);
  }

  lemma FiveFrames(s: seq<byte>, a: seq<byte>, b: seq<byte>, c: seq<byte>, d: seq<byte>, e: seq<byte>, m: Args)
    requires FrameOf(0, a, m[0]) && FrameOf(1, b, m[1]) && FrameOf(2, c, m[2]) && FrameOf(3, d, m[3])
    requires FrameOf(4, e, m[4]) && s == [] + a + b + c + d + e
    ensures |s| == 25
    ensures forall i | 0 <= i < 5 :: s[5 * i] == [0x0D, 0x15, 0x1D, 0x25, 0x2D][i]
    ensures forall i | 0 <= i < 5 :: BytesValue(s[5 * i + 1..5 * i + 5]) == m[i]
  {
    hide BytesValue;
    assert s[1..5] == a[1..5] && s[6..10] == b[1..5] && s[11..15] == c[1..5];
    assert s[16..20] == d[1..5] && s[21..25] == e[1..5];
  }

  /** Zeros of either sign are left out. */
  lemma ZerosAreNotWritten(m: Args)
    requires forall b <- m :: b == 0 || b == 0x8000_0000
    ensures Serialize(m) == []
  {
    SerializeUnrolled([], m);
    forall i: nat | i < 5 ensures ArgBytes(i, m[i]) == [] {
      assert m[i] in m;
    }
    hide Serialize, ArgBytes;
  }

  /** 1.0 as the first argument. */
  lemma OneFrame(depth: nat)
    ensures Serialize([0x3F80_0000, 0, 0, 0, 0]) == [0x0D, 0x00, 0x00, 0x80, 0x3F]
    ensures Parse([0x0D, 0x00, 0x00, 0x80, 0x3F], CLEARED, depth)
         == Outcome(true, [0x3F80_0000, 0, 0, 0, 0], 0, true, [])
  {
    var m: Args := [0x3F80_0000, 0, 0, 0, 0];
    SerializeUnrolled([], m);
    assert ArgBytes(0, m[0]) == [0x0D, 0x00, 0x00, 0x80, 0x3F];
    RoundTrip(m, depth);
    hide Parse, Serialize, SerializeFrom;
  }

  lemma ByteVarint(b: byte)
    requires b < 0x80
    ensures IsVarint([b]) && VarintValue([b]) == b
  {
    assert [b][1..] == [];
  }

  /** An unknown string field whose text looks like the first argument leaves the message cleared. */
  lemma StringIsSkipped(depth: nat)
    ensures Parse([0x32, 0x05, 0x0D, 0x00, 0x00, 0x80, 0x3F], CLEARED, depth) == Outcome(true, CLEARED, 0, true, [])
  {
    var p := Delimited([0x05], [0x0D, 0x00, 0x00, 0x80, 0x3F]);
    ByteVarint(0x32);
    ByteVarint(0x05);
    ParseByTag([], CLEARED, depth);
    hide Parse, VarintValue, IsVarint;
    UnknownField([0x32], p, [], CLEARED, depth);
    assert [0x32] + PayloadBytes(p) + [] == [0x32, 0x05, 0x0D, 0x00, 0x00, 0x80, 0x3F];
  }

  /** A value of 300 takes two bytes, the low seven bits first. */
  lemma VarintExample()
    ensures VarintValue([0xAC, 0x02]) == 300 && EncodeVarint(300) == [0xAC, 0x02]
  {
    assert EncodeVarint(2) == [2];
    assert [0xAC, 0x02][1..] == [0x02] && VarintValue([0x02]) == 2;
  }

  // ----- what a pattern stands for -----

  function PowerOfTwo(k: int): (p: real)
    ensures p > 0.0
    decreases if k < 0 then -k else k
  {
    if k == 0 then 1.0 else if k > 0 then 2.0 * PowerOfTwo(k - 1) else PowerOfTwo(k + 1) / 2.0
  }

  function Exponent(b: Bits): nat {
    b / 0x80_0000 % 0x100
  }

  function Magnitude(exponent: nat, fraction: nat): real {
    var f := fraction as real / 8388608.0;
    if exponent == 0 then f * PowerOfTwo(-126) else (1.0 + f) * PowerOfTwo(exponent - 127)
  }

  /** The number a finite pattern stands for: sign, exponent and fraction of binary32 (section 3.4 of IEEE
      754-2008). */
  function FloatValue(b: Bits): real
    requires Exponent(b) < 255
  {
    var magnitude := Magnitude(Exponent(b), b % 0x80_0000);
    if b >= 0x8000_0000 then -magnitude else magnitude
  }

  lemma OneIs()
    ensures Exponent(0x3F80_0000) == 127 == Exponent(0xBF80_0000)
    ensures FloatValue(0x3F80_0000) == 1.0 && FloatValue(0xBF80_0000) == -1.0
  {
    assert Exponent(0x3F80_0000) == 127 == Exponent(0xBF80_0000);
    assert PowerOfTwo(0) == 1.0;
    assert Magnitude(127, 0) == 1.0;
    hide PowerOfTwo, Magnitude;
  }

  lemma ProductZero(x: real, p: real)
    requires x >= 0.0 && p > 0.0
    ensures x * p == 0.0 <==> x == 0.0
  {
  }

  lemma MagnitudeZero(exponent: nat, fraction: nat)
    ensures Magnitude(exponent, fraction) == 0.0 <==> exponent == 0 && fraction == 0
  {
    hide PowerOfTwo;
    var f := fraction as real / 8388608.0;
    ProductZero(f, PowerOfTwo(-126));
    ProductZero(1.0 + f, PowerOfTwo(exponent - 127));
  }

  /** The patterns left out as zero are those of the number 0. */
  lemma NonZeroIff(b: Bits)
    requires Exponent(b) < 255
    ensures NonZero(b) <==> FloatValue(b) != 0.0
  {
    MagnitudeZero(Exponent(b), b % 0x80_0000);
    PatternParts(b);
    hide Magnitude, PowerOfTwo, Exponent;
  }

  lemma PatternParts(b: Bits)
    ensures Exponent(b) == 0 && b % 0x80_0000 == 0 <==> b == 0 || b == 0x8000_0000
  {
  }
}
