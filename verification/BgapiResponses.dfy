/** The command-response recognisers: byte-by-byte framers that take the first 00 03 packet, in the
    alignment their buffer happens to have. */
module BgapiResponses {
  import opened Basics
  import opened BgapiPort

  /** The offset behind the packet a recogniser returns on, if it returns on one at all. */
  function ResponseEnd(s: seq<byte>): (end: Option<nat>)
    ensures end.Some? ==> 7 <= end.value <= |s|
  {
    if |s| < 2 || s[1] == 0 then None
    else if s[1] == 3 then if |s| < 7 then None else Some(7)
    else Shifted(2, ResponseEnd(s[2..]))
  }

  function Shifted(k: nat, end: Option<nat>): Option<nat> {
    match end
    case None => None
    case Some(n) => Some(k + n)
  }

  // ----- the accepted language -----

  /** k byte pairs are skipped: the second byte of none of them is 00 or 03. */
  predicate Skips(s: seq<byte>, k: nat) {
    2 * k <= |s| && forall j | 0 <= j < k :: s[2 * j + 1] != 0 && s[2 * j + 1] != 3
  }

  predicate EndsAfter(s: seq<byte>, k: nat) {
    2 * k + 7 <= |s| && Skips(s, k) && s[2 * k + 1] == 3
  }

  lemma {:induction false} EndAfterPairs(s: seq<byte>, k: nat)
    requires EndsAfter(s, k)
    ensures ResponseEnd(s) == Some(2 * k + 7)
    decreases k
  {
    if k > 0 {
      assert s[2 * 0 + 1] != 0 && s[2 * 0 + 1] != 3;
      forall j | 0 <= j < k - 1 ensures s[2..][2 * j + 1] != 0 && s[2..][2 * j + 1] != 3 {
        assert s[2..][2 * j + 1] == s[2 * (j + 1) + 1];
      }
      EndAfterPairs(s[2..], k - 1);
    }
  }

  lemma {:induction false} PairsBeforeEnd(s: seq<byte>) returns (k: nat)
    requires ResponseEnd(s).Some?
    ensures EndsAfter(s, k) && ResponseEnd(s) == Some(2 * k + 7)
  {
    if s[1] == 3 {
      k := 0;
    } else {
      var k' := PairsBeforeEnd(s[2..]);
      k := k' + 1;
      forall j | 0 <= j < k ensures s[2 * j + 1] != 0 && s[2 * j + 1] != 3 {
        assert j > 0 ==> s[2 * j + 1] == s[2..][2 * (j - 1) + 1];
      }
      assert s[2 * k + 1] == s[2..][2 * k' + 1];
    }
  }

  /** The exact language: a recogniser returns a response precisely on the streams that start with pairs
      (x y) whose y is neither 00 nor 03, then any x, then 03 and five more bytes. */
  lemma ResponseLanguage(s: seq<byte>, n: nat)
    ensures ResponseEnd(s) == Some(n) <==> exists k: nat :: EndsAfter(s, k) && n == 2 * k + 7
  {
    if ResponseEnd(s) == Some(n) {
      var k := PairsBeforeEnd(s);
    }
    forall k: nat | EndsAfter(s, k) && n == 2 * k + 7 ensures ResponseEnd(s) == Some(n) {
      EndAfterPairs(s, k);
    }
  }

  // ----- the recognisers -----

  /** Where a recogniser stands behind s[..at]: it is collecting the packet that began at `start`, or it is
      stuck behind a pair (x 00) and will take in everything. */
  ghost predicate Collecting(s: seq<byte>, at: nat, start: nat, buffer: seq<byte>, expected: nat) {
    && start <= at <= |s|
    && buffer == s[start..at]
    && match expected
       case 0 =>
         if |buffer| < 2 then ResponseEnd(s) == Shifted(start, ResponseEnd(s[start..]))
         else ResponseEnd(s) == None
       case _ =>
         expected == 7 && 2 <= |buffer| < 7 && buffer[1] == 3
         && ResponseEnd(s) == Shifted(start, ResponseEnd(s[start..]))
  }

  lemma {:induction false} CollectingStarts(s: seq<byte>)
    ensures Collecting(s, 0, 0, [], 0)
  {
  }

  lemma {:induction false} CollectingStep(s: seq<byte>, at: nat, start: nat, buffer: seq<byte>, expected: nat, b: byte)
    requires Collecting(s, at, start, buffer, expected) && at < |s| && s[at] == b
    ensures expected == 0 || (expected == 7 && 2 <= |buffer| < 7)
    ensures expected == 0 && |buffer| == 1 && b != 0 && b != 3 ==> Collecting(s, at + 1, at + 1, [], 0)
    ensures expected == 0 && |buffer| == 1 && b == 3 ==> Collecting(s, at + 1, start, buffer + [b], 7)
    ensures expected == 0 && !(|buffer| == 1 && b != 0) ==> Collecting(s, at + 1, start, buffer + [b], 0)
    ensures expected == 7 && |buffer| < 6 ==> Collecting(s, at + 1, start, buffer + [b], 7)
    ensures expected == 7 && |buffer| == 6 ==> ResponseEnd(s) == Some(at + 1) && buffer + [b] == s[at - 6..at + 1]
  {
  }

  /** The packet a recogniser returns on, or nothing when it took in the whole stream without one. */
  ghost predicate Recognised(s: seq<byte>, packet: seq<byte>, left: seq<byte>) {
    match ResponseEnd(s)
    case None => packet == [] && left == []
    case Some(n) => packet == s[n - 7..n] && left == s[n..]
  }

  /** The loop of the attribute client's recognisers. */
  method ReadResponse(p: Port) returns (packet: seq<byte>)
    modifies p`waiting
    ensures Recognised(old(p.waiting), packet, p.waiting)
  {
    packet := [];
    var expectedLength: nat, rxBuffer: seq<byte> := 0, [];
    ghost var s, at, start := p.waiting, 0, 0;
    CollectingStarts(s);
    hide ResponseEnd, Shifted, Collecting;
    while p.waiting != []
      invariant at <= |s| && p.waiting == s[at..] && packet == []
      invariant Collecting(s, at, start, rxBuffer, expectedLength)
      decreases |p.waiting|
    {
      var b := p.Read();
      assert p.waiting == s[at..][1..] == s[at + 1..];
      CollectingStep(s, at, start, rxBuffer, expectedLength, b);
      at := at + 1;
      if expectedLength == 0 && b == 0x00 {
        rxBuffer := rxBuffer + [b];
      } else if |rxBuffer| == 1 && expectedLength == 0 {
        if b == 0x03 {
          rxBuffer := rxBuffer + [b];
          expectedLength := 4 + rxBuffer[1];
        } else {
          rxBuffer := [];
          start := at;
        }
      } else {
        rxBuffer := rxBuffer + [b];
      }
      if |rxBuffer| == expectedLength && expectedLength > 0 {
        return rxBuffer;
      }
    }
    NoEndInside(s, at, start, rxBuffer, expectedLength);
  }

  /** The loop of ble_rsp_gap_connect_direct, with its own order of tests. */
  method ReadConnectResponse(p: Port) returns (packet: seq<byte>)
    modifies p`waiting
    ensures Recognised(old(p.waiting), packet, p.waiting)
  {
    packet := [];
    var expectedLength: nat, rxBuffer: seq<byte> := 0, [];
    ghost var s, at, start := p.waiting, 0, 0;
    CollectingStarts(s);
    hide ResponseEnd, Shifted, Collecting;
    while p.waiting != []
      invariant at <= |s| && p.waiting == s[at..] && packet == []
      invariant Collecting(s, at, start, rxBuffer, expectedLength)
      decreases |p.waiting|
    {
      var b := p.Read();
      assert p.waiting == s[at..][1..] == s[at + 1..];
      CollectingStep(s, at, start, rxBuffer, expectedLength, b);
      at := at + 1;
      if b == 0x00 && expectedLength == 0 {
        rxBuffer := rxBuffer + [b];
      } else if |rxBuffer| == 1 {
        if b == 0x03 {
          rxBuffer := rxBuffer + [b];
          expectedLength := 4 + rxBuffer[1];
        } else {
          rxBuffer, expectedLength := [], 0;
          start := at;
        }
      } else {
        rxBuffer := rxBuffer + [b];
      }
      if |rxBuffer| == expectedLength && expectedLength > 0 {
        return rxBuffer;
      }
    }
    NoEndInside(s, at, start, rxBuffer, expectedLength);
  }

  /** ble_rsp_attclient_find_information; read_by_group_type and read_by_handle have the same body. */
  method FindInformationResponse(p: Port) returns (handle: nat, result: string)
    modifies p`waiting
    ensures match ResponseEnd(old(p.waiting))
            case None => p.waiting == [] && handle == 0 && result == ""
            case Some(n) =>
              && p.waiting == old(p.waiting)[n..]
              && handle == old(p.waiting)[n - 3]
              && result == Hex4(Word(old(p.waiting)[n - 2], old(p.waiting)[n - 1]))
  {
    hide ResponseEnd, Hex4;
    handle, result := 0, "";
    var packet := ReadResponse(p);
    if packet != [] {
      var payload := packet[4..];
      handle, result := payload[0], Hex4(Word(payload[1], payload[2]));
    }
  }

  /** ble_rsp_attclient_write_command, and read_by_type alike: the connection lands in a variable that is
      not returned, so the handle is 0 even for a response that was found. */
  method WriteCommandResponse(p: Port) returns (handle: nat, result: string)
    modifies p`waiting
    ensures match ResponseEnd(old(p.waiting))
            case None => p.waiting == [] && handle == 0 && result == ""
            case Some(n) =>
              && p.waiting == old(p.waiting)[n..]
              && handle == 0
              && result == Hex4(Word(old(p.waiting)[n - 2], old(p.waiting)[n - 1]))
  {
    hide ResponseEnd, Hex4;
    handle, result := 0, "";
    var packet := ReadResponse(p);
    if packet != [] {
      var payload := packet[4..];
      result := Hex4(Word(payload[1], payload[2]));
    }
  }

  /** ble_rsp_gap_connect_direct: the same packets, read as result before handle. */
  method ConnectDirectResponse(p: Port) returns (result: string, handle: nat)
    modifies p`waiting
    ensures match ResponseEnd(old(p.waiting))
            case None => p.waiting == [] && handle == 0 && result == ""
            case Some(n) =>
              && p.waiting == old(p.waiting)[n..]
              && result == Hex4(Word(old(p.waiting)[n - 3], old(p.waiting)[n - 2]))
              && handle == old(p.waiting)[n - 1]
  {
    hide ResponseEnd, Hex2, Hex4, HexOf;
    handle, result := 0, "";
    var packet := ReadConnectResponse(p);
    if packet != [] {
      HexPair(packet[4], packet[5]);
      HexOfTwo(packet[5], packet[4]);
      assert Reversed(packet[4..6]) == [packet[5], packet[4]];
      handle, result := packet[6], HexOf(Reversed(packet[4..6]));
    }
  }

  lemma {:induction false} NoEndInside(s: seq<byte>, at: nat, start: nat, buffer: seq<byte>, expected: nat)
    requires at == |s|
    ensures Collecting(s, at, start, buffer, expected) ==> ResponseEnd(s) == None
  {
  }
}
