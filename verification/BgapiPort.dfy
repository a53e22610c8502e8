/** The serial port of the BLE dongle, and hexadecimal rendering. */
module BgapiPort {
  import opened Basics

  /** The bytes waiting to be read, and the bytes written so far. */
  class Port {
    var waiting: seq<byte>
    var written: seq<byte>

    constructor (waiting: seq<byte>)
      ensures this.waiting == waiting && written == []
    {
      this.waiting, written := waiting, [];
    }

    method Read() returns (b: byte)
      requires waiting != []
      modifies this`waiting
      ensures [b] + waiting == old(waiting)
    {
      b, waiting := waiting[0], waiting[1..];
    }

    method Write(bytes: seq<byte>)
      modifies this`written
      ensures written == old(written) + bytes
    {
      written := written + bytes;
    }
  }

  // ----- rendering -----

  function HexDigit(d: nat): char
    requires d < 16
  {
    if d < 10 then ('0' as int + d) as char else ('A' as int + d - 10) as char
  }

  /** "%02X" % b */
  function Hex2(b: byte): string {
    [HexDigit(b / 16), HexDigit(b % 16)]
  }

  /** "%04X" % v */
  function Hex4(v: nat): string
    requires v < 0x1_0000
  {
    [HexDigit(v / 0x1000), HexDigit(v / 0x100 % 16), HexDigit(v / 0x10 % 16), HexDigit(v % 16)]
  }

  lemma HexDigitIs(d: nat)
    requires d < 16
    ensures HexDigit(d) == "0123456789ABCDEF"[d]
  {
  }

  /** The digit a character of hexadecimal text is. */
  function DigitValue(c: char): nat {
    if '0' <= c <= '9' then c as int - '0' as int
    else if 'A' <= c <= 'F' then c as int - 'A' as int + 10
    else 0
  }

  /** The number hexadecimal text spells, most significant digit first. */
  function HexValue(s: string): nat {
    if s == [] then 0 else 16 * HexValue(s[..|s| - 1]) + DigitValue(s[|s| - 1])
  }

  lemma {:induction false} HexValueSnoc(s: string, d: nat)
    requires d < 16
    ensures HexValue(s + [HexDigit(d)]) == 16 * HexValue(s) + d
  {
    assert (s + [HexDigit(d)])[..|s|] == s;
  }

  /** Four-digit rendering reads back as the number. */
  lemma HexReadsBack(v: nat)
    requires v < 0x1_0000
    ensures HexValue(Hex4(v)) == v
  {
    var a, b, c, d := v / 0x1000, v / 0x100 % 16, v / 0x10 % 16, v % 16;
    hide HexDigit;
    HexValueSnoc([], a);
    HexValueSnoc([HexDigit(a)], b);
    HexValueSnoc([HexDigit(a), HexDigit(b)], c);
    HexValueSnoc([HexDigit(a), HexDigit(b), HexDigit(c)], d);
    hide HexValue;
    assert [] + [HexDigit(a)] == [HexDigit(a)];
    assert [HexDigit(a)] + [HexDigit(b)] == [HexDigit(a), HexDigit(b)];
    assert [HexDigit(a), HexDigit(b)] + [HexDigit(c)] == [HexDigit(a), HexDigit(b), HexDigit(c)];
    assert [HexDigit(a), HexDigit(b), HexDigit(c)] + [HexDigit(d)] == Hex4(v);
    DigitsOfWord(v);
  }

  lemma DigitsOfWord(v: nat)
    ensures 16 * (16 * (16 * (v / 0x1000) + v / 0x100 % 16) + v / 0x10 % 16) + v % 16 == v
  {
    var u, w, x := v / 0x10, v / 0x100, v / 0x1000;
    assert w == u / 16 && x == w / 16 by {
      SixteenthTwice(v);
      SixteenthTwice(u);
    }
    FourDigits(v, u, w, x, w % 16, u % 16, v % 16);
  }

  lemma SixteenthTwice(v: nat)
    ensures v / 16 / 16 == v / 0x100 && v / 16 / 0x100 == v / 0x1000
  {
  }

  lemma FourDigits(v: nat, u: nat, w: nat, x: nat, b: nat, c: nat, d: nat)
    requires v == 16 * u + d && u == 16 * w + c && w == 16 * x + b
    ensures 16 * (16 * (16 * x + b) + c) + d == v
  {
  }

  function Word(low: byte, high: byte): (v: nat)
    ensures v < 0x1_0000
  {
    low as int + 256 * (high as int)
  }

  function Reversed<T>(s: seq<T>): (r: seq<T>)
    ensures |r| == |s| && forall i | 0 <= i < |s| :: r[i] == s[|s| - 1 - i]
  {
    if s == [] then [] else Reversed(s[1..]) + [s[0]]
  }

  function HexOf(s: seq<byte>): string {
    if s == [] then [] else Hex2(s[0]) + HexOf(s[1..])
  }

  lemma {:induction false} HexOfSnoc(s: seq<byte>, b: byte)
    ensures HexOf(s + [b]) == HexOf(s) + Hex2(b)
  {
    if s != [] {
      assert (s + [b])[1..] == s[1..] + [b];
      HexOfSnoc(s[1..], b);
    }
  }

  /** Two digits for every byte, in order. */
  lemma {:induction false} HexOfAt(s: seq<byte>)
    ensures |HexOf(s)| == 2 * |s|
    ensures forall i | 0 <= i < |s| :: HexOf(s)[2 * i..2 * i + 2] == Hex2(s[i])
  {
    if s != [] {
      HexOfAt(s[1..]);
      forall i | 1 <= i < |s| ensures HexOf(s)[2 * i..2 * i + 2] == Hex2(s[i]) {
        assert HexOf(s)[2 * i..2 * i + 2] == HexOf(s[1..])[2 * (i - 1)..2 * (i - 1) + 2];
      }
      hide HexOf;
    }
  }

  /** Python's s[start:], where a negative start counts from the end. */
  function From<T>(s: seq<T>, start: int): seq<T> {
    var at := if start < 0 then |s| + start else start;
    s[if at < 0 then 0 else if at > |s| then |s| else at..]
  }

  /** What chn_errcode takes of a response: the code behind a header of that length if there is one; for a
      bare header, and for a read that ended inside it, bytes of the header itself. */
  lemma ErrcodeSlice(origin: seq<byte>, lenNonInfo: nat)
    ensures From(origin, -(|origin| - lenNonInfo)) ==
            if lenNonInfo < |origin| then origin[lenNonInfo..]
            else if lenNonInfo < 2 * |origin| then origin[lenNonInfo - |origin|..]
            else []
  {
  }

  /** So it takes the bytes behind the header, and none when there are none, if and only if there are some
      or the response is no longer than half a header. */
  lemma ErrcodeRightIff(origin: seq<byte>, lenNonInfo: nat)
    ensures From(origin, -(|origin| - lenNonInfo)) == (if lenNonInfo <= |origin| then origin[lenNonInfo..] else [])
       <==> lenNonInfo < |origin| || 2 * |origin| <= lenNonInfo
  {
    ErrcodeSlice(origin, lenNonInfo);
  }

  /** The error code in a response: everything behind the header, last byte first. */
  method ChnErrcode(origin: seq<byte>, lenNonInfo: nat) returns (result: string)
    ensures lenNonInfo < |origin| ==> result == HexOf(Reversed(origin[lenNonInfo..]))
    ensures |origin| <= lenNonInfo < 2 * |origin| ==> result == HexOf(Reversed(origin[lenNonInfo - |origin|..]))
    ensures 2 * |origin| <= lenNonInfo ==> result == ""
  {
    var temp := Reversed(From(origin, -(|origin| - lenNonInfo)));
    ErrcodeSlice(origin, lenNonInfo);
    result := "";
    for i := 0 to |temp|
      invariant result == HexOf(temp[..i])
    {
      HexOfSnoc(temp[..i], temp[i]);
      assert temp[..i + 1] == temp[..i] + [temp[i]];
      result := result + Hex2(temp[i]);
    }
    assert temp[..|temp|] == temp;
  }

  /** A two-byte code behind the header comes out as the number it is, most significant digit first. */
  lemma ErrcodeIsWord(header: seq<byte>, low: byte, high: byte)
    ensures HexOf(Reversed((header + [low, high])[|header|..])) == Hex4(Word(low, high))
  {
    assert (header + [low, high])[|header|..] == [low, high];
    assert Reversed([low, high]) == [high, low];
    HexOfTwo(high, low);
    HexPair(low, high);
    hide HexOf, Hex2, Hex4, Word;
  }

  lemma HexOfTwo(a: byte, b: byte)
    ensures HexOf([a, b]) == Hex2(a) + Hex2(b)
  {
    assert [a, b][1..] == [b] && [b][1..] == [];
    assert HexOf([b]) == Hex2(b) + HexOf([]);
    hide Hex2;
  }

  lemma WordDigits(low: byte, high: byte)
    ensures var v := Word(low, high);
            v / 0x1000 == high / 16 && v / 0x100 % 16 == high % 16 && v / 0x10 % 16 == low / 16 && v % 16 == low % 16
  {
    var v := Word(low, high);
    assert v / 0x100 == high;
    var l, r := low / 16, low % 16;
    assert v == 16 * (16 * (high as int) + l) + r;
    assert v / 0x10 == 16 * (high as int) + l;
  }

  lemma HexPair(low: byte, high: byte)
    ensures Hex2(high) + Hex2(low) == Hex4(Word(low, high))
  {
    WordDigits(low, high);
    hide HexDigit, Word;
  }
}
