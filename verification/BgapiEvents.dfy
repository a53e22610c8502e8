/** The event framers for attribute values and group discoveries: what one call takes from the stream, and
    that events sent back to back are read back in order. */
module BgapiEvents {
  import opened Basics
  import opened BgapiPort

  /** The packet a framer completes first, if it completes one: four header bytes and as many more as the
      second of them says. A second byte of 0x80 is taken for another start byte and no length is ever set. */
  function Framed(s: seq<byte>): (n: Option<nat>)
    ensures n.Some? ==> 4 <= n.value <= |s|
  {
    if |s| < 2 || s[1] == 0x80 || |s| < 4 + s[1] as int then None else Some(4 + s[1] as int)
  }

  // ----- attribute values -----

  /** One call: no event although everything was read, a value, the end of a procedure, or a payload too
      short to unpack. `end` is how many bytes the call took. */
  datatype AttributeOutcome =
    | NoEvent(end: nat)
    | Value(end: nat, handle: nat, value: seq<byte>)
    | Completed(end: nat)
    | StructError(end: nat)

  function AttributeEvent(s: seq<byte>): (o: AttributeOutcome)
    ensures o.end <= |s|
  {
    match Framed(s)
    case None => NoEvent(|s|)
    case Some(n) =>
      if s[3] != 0x05 && s[3] != 0x01 then NoEvent(|s|)
      else if n < 9 then StructError(n)
      else if s[3] == 0x05 then Value(n, Word(s[5], s[6]), s[9..n])
      else Completed(n)
  }

  /** A packet with its payload length in the second byte. */
  function PacketOf(first: byte, class_: byte, kind: byte, payload: seq<byte>): seq<byte>
    requires |payload| <= 255
  {
    [first, |payload|, class_, kind] + payload
  }

  /** A whole packet in front, by kind: 05 is a value, 01 ends the procedure, either with at least five bytes
      of payload; behind any other kind, and behind a payload of 0x80 bytes, the call takes in everything. */
  lemma AttributeKinds(first: byte, class_: byte, kind: byte, payload: seq<byte>, rest: seq<byte>)
    requires |payload| <= 255
    ensures var s, n := PacketOf(first, class_, kind, payload) + rest, 4 + |payload|;
            && (|payload| == 0x80 || kind !in {0x01, 0x05} ==> AttributeEvent(s) == NoEvent(n + |rest|))
            && (|payload| != 0x80 && kind in {0x01, 0x05} && |payload| < 5 ==> AttributeEvent(s) == StructError(n))
            && (|payload| != 0x80 && kind == 0x01 && |payload| >= 5 ==> AttributeEvent(s) == Completed(n))
            && (|payload| != 0x80 && kind == 0x05 && |payload| >= 5 ==>
                  AttributeEvent(s) == Value(n, payload[1] + 0x100 * (payload[2] as int), payload[5..]))
  {
  }

  /** A packet that is not all there is waited for. */
  lemma PartialPacket(s: seq<byte>)
    requires |s| < 2 || |s| < 4 + s[1] as int
    ensures AttributeEvent(s) == NoEvent(|s|) && GroupEvents(s) == GroupOutcome([], Waiting, |s|)
  {
  }

  /** A framer behind the bytes `buffer` of a packet that began with buffer[0]. */
  ghost predicate Framing(buffer: seq<byte>, expected: nat) {
    match expected
    case 0 => |buffer| < 2 || buffer[1] == 0x80
    case _ => |buffer| >= 2 && buffer[1] != 0x80 && expected == 4 + buffer[1] as int
  }

  /** The three branches every event framer starts with. */
  method Append(rxBuffer: seq<byte>, expectedLength: nat, b: byte) returns (buffer: seq<byte>, expected: nat)
    requires Framing(rxBuffer, expectedLength)
    ensures buffer == rxBuffer + [b] && Framing(buffer, expected)
    ensures expected != expectedLength ==> |buffer| == 2
  {
    buffer, expected := rxBuffer, expectedLength;
    if expected == 0 && b == 0x80 {
      buffer := buffer + [b];
    } else if |buffer| == 1 && expected == 0 {
      buffer := buffer + [b];
      expected := 4 + buffer[1] as int;
    } else {
      buffer := buffer + [b];
    }
  }

  /** ble_evt_attclient_attribute_value_evt_t; `raised` stands for struct.error. */
  method AttributeValueEvent(p: Port) returns (raised: bool, isItOver: bool, atthandle: nat, value: seq<byte>)
    modifies p`waiting
    ensures var o := AttributeEvent(old(p.waiting));
            && p.waiting == old(p.waiting)[o.end..]
            && raised == o.StructError?
            && isItOver == (o.Value? || o.Completed?)
            && atthandle == (if o.Value? then o.handle else 0)
            && value == (if o.Value? then o.value else [])
  {
    raised, isItOver, atthandle, value := false, false, 0, [];
    var expectedLength: nat, rxBuffer: seq<byte> := 0, [];
    ghost var s := p.waiting;
    while p.waiting != []
      invariant rxBuffer + p.waiting == s
      invariant Framing(rxBuffer, expectedLength)
      invariant 0 < expectedLength <= |rxBuffer| ==> rxBuffer[3] != 0x05 && rxBuffer[3] != 0x01
      decreases |p.waiting|
    {
      var b := p.Read();
      assert rxBuffer + [b] + p.waiting == s;
      rxBuffer, expectedLength := Append(rxBuffer, expectedLength, b);
      if |rxBuffer| == expectedLength && expectedLength > 0 {
        assert Framed(s) == Some(|rxBuffer|) && s[..|rxBuffer|] == rxBuffer && s[|rxBuffer|..] == p.waiting;
        if rxBuffer[3] == 0x05 {
          var payload := rxBuffer[4..];
          if |payload| < 5 {
            raised := true;
            return;
          }
          atthandle := Word(payload[1], payload[2]);
          value := payload[5..];
          isItOver := true;
          return;
        } else if rxBuffer[3] == 0x01 {
          raised := |rxBuffer[4..]| < 5;
          isItOver := !raised;
          return;
        }
      }
    }
    assert rxBuffer == s;
  }

  datatype Event = Event(first: byte, class_: byte, connection: byte, handle: nat, kind: byte, valueLen: byte,
                         value: seq<byte>)
  {
    predicate WellFormed() {
      handle < 0x1_0000 && |value| <= 250
    }

    function Encode(): seq<byte>
      requires WellFormed()
    {
      [first, 5 + |value|, class_, 0x05, connection, handle % 256, handle / 256, kind, valueLen] + value
    }
  }

  function EncodeEvents(es: seq<Event>): seq<byte>
    requires forall e <- es :: e.WellFormed()
  {
    if es == [] then [] else es[0].Encode() + EncodeEvents(es[1..])
  }

  /** A call on a stream that starts with a whole event takes exactly that event, unless its payload
      length is 0x80: then it takes in everything and returns nothing. */
  lemma EventIsRead(e: Event, rest: seq<byte>)
    requires e.WellFormed()
    ensures AttributeEvent(e.Encode() + rest) ==
            if |e.value| == 123 then NoEvent(|e.Encode() + rest|)
            else Value(|e.Encode()|, e.handle, e.value)
  {
  }

  /** n calls in a row, each on what the one before it left. */
  function Calls(s: seq<byte>, n: nat): (os: seq<AttributeOutcome>)
    ensures |os| == n
  {
    if n == 0 then [] else [AttributeEvent(s)] + Calls(s[AttributeEvent(s).end..], n - 1)
  }

  predicate Reads(e: Event, o: AttributeOutcome) {
    o.Value? && o.handle == e.handle && o.value == e.value
  }

  /** Events sent back to back are read one per call and in order, if and only if none of them has a
      payload of 0x80 bytes. */
  lemma {:induction false} EventsAreReadIff(es: seq<Event>)
    requires forall e <- es :: e.WellFormed()
    ensures (forall i | 0 <= i < |es| :: Reads(es[i], Calls(EncodeEvents(es), |es|)[i]))
       <==> (forall i | 0 <= i < |es| :: |es[i].value| != 123)
  {
    if es != [] {
      var s, rest := EncodeEvents(es), EncodeEvents(es[1..]);
      EventIsRead(es[0], rest);
      EventsAreReadIff(es[1..]);
      var calls := Calls(s, |es|);
      if |es[0].value| != 123 {
        assert s[|es[0].Encode()|..] == rest;
        assert calls == [AttributeEvent(s)] + Calls(rest, |es| - 1);
        hide AttributeEvent, Calls, EncodeEvents, Event.Encode;
        TailIff(es, calls, Calls(rest, |es| - 1));
      } else {
        assert !Reads(es[0], calls[0]);
      }
    }
  }

  lemma TailIff(es: seq<Event>, calls: seq<AttributeOutcome>, more: seq<AttributeOutcome>)
    requires |es| == |calls| > 0 && |more| == |es| - 1 && calls[1..] == more
    ensures (forall i | 0 <= i < |es| :: Reads(es[i], calls[i]))
       <==> Reads(es[0], calls[0]) && (forall i | 0 <= i < |es[1..]| :: Reads(es[1..][i], more[i]))
    ensures (forall i | 0 <= i < |es| :: |es[i].value| != 123)
       <==> |es[0].value| != 123 && (forall i | 0 <= i < |es[1..]| :: |es[1..][i].value| != 123)
  {
    assert forall i | 1 <= i < |es| :: es[i] == es[1..][i - 1] && calls[i] == more[i - 1];
    assert forall i | 0 <= i < |es[1..]| :: es[1..][i] == es[i + 1] && more[i] == calls[i + 1];
    hide Reads;
  }

  // ----- group discoveries -----

  datatype Group = Group(connection: byte, start: nat, end: nat, uuidLen: byte, uuid: seq<byte>)

  datatype Status = Waiting | Over | Raised

  /** One call: the groups it printed, why it stopped, and how many bytes it took. */
  datatype GroupOutcome = GroupOutcome(found: seq<Group>, status: Status, taken: nat)

  function GroupIn(packet: seq<byte>): Group
    requires |packet| >= 10
  {
    Group(packet[4], Word(packet[5], packet[6]), Word(packet[7], packet[8]), packet[9], packet[10..])
  }

  function GroupEvents(s: seq<byte>): (o: GroupOutcome)
    ensures o.taken <= |s|
    decreases |s|
  {
    match Framed(s)
    case None => GroupOutcome([], Waiting, |s|)
    case Some(n) =>
      if s[3] == 0x02 then
        if n < 10 then GroupOutcome([], Raised, n) else Before([GroupIn(s[..n])], n, GroupEvents(s[n..]))
      else if s[3] == 0x01 then
        GroupOutcome([], if n < 9 then Raised else Over, n)
      else GroupOutcome([], Waiting, |s|)
  }

  function Before(found: seq<Group>, taken: nat, o: GroupOutcome): GroupOutcome {
    GroupOutcome(found + o.found, o.status, taken + o.taken)
  }

  /** ble_msg_attclient_group_found_evt_t, with the groups it prints. */
  method GroupFoundEvent(p: Port) returns (raised: bool, isItOver: bool, printed: seq<Group>)
    modifies p`waiting
    ensures var o := GroupEvents(old(p.waiting));
            && p.waiting == old(p.waiting)[o.taken..]
            && printed == o.found && raised == (o.status == Raised) && isItOver == (o.status == Over)
  {
    raised, isItOver, printed := false, false, [];
    var expectedLength: nat, rxBuffer: seq<byte> := 0, [];
    ghost var s, done := p.waiting, [];
    BeforeNothing(s);
    FramedPacket([], 0);
    hide GroupEvents, Before, GroupIn, Follows, Framing;
    while p.waiting != []
      invariant Follows(s, done, rxBuffer + p.waiting)
      invariant GroupEvents(s) == Before(printed, |done|, GroupEvents(rxBuffer + p.waiting))
      invariant Framing(rxBuffer, expectedLength)
      invariant expectedLength == 0 || expectedLength >= 4
      invariant 0 < expectedLength <= |rxBuffer| ==> rxBuffer[3] != 0x02 && rxBuffer[3] != 0x01
      decreases |p.waiting|
    {
      ghost var left := p.waiting;
      var b := p.Read();
      assert rxBuffer + [b] + p.waiting == rxBuffer + left;
      rxBuffer, expectedLength := Append(rxBuffer, expectedLength, b);
      FramedPacket(rxBuffer, expectedLength);
      if |rxBuffer| == expectedLength && expectedLength > 0 {
        PacketEvents(printed, |done|, rxBuffer, p.waiting);
        FollowsPacket(s, done, rxBuffer, p.waiting);
        if rxBuffer[3] == 0x02 {
          if |rxBuffer[4..]| < 6 {
            raised := true;
            return;
          }
          printed := printed + [GroupIn(rxBuffer)];
          done := done + rxBuffer;
          rxBuffer := [];
          expectedLength := 0;
          BeforeNothing(p.waiting);
        } else if rxBuffer[3] == 0x01 {
          raised := |rxBuffer[4..]| < 5;
          isItOver := !raised;
          return;
        }
      }
    }
    assert rxBuffer + p.waiting == rxBuffer;
    NoPacket(printed, |done|, rxBuffer, expectedLength);
    FollowsPacket(s, done, rxBuffer, []);
  }

  /** A buffer that has reached its expected length is a whole packet; an empty one expects nothing yet. */
  lemma FramedPacket(buffer: seq<byte>, expected: nat)
    requires Framing(buffer, expected)
    ensures expected > 0 ==> expected >= 4 && |buffer| >= 2 && buffer[1] != 0x80 && expected == 4 + buffer[1] as int
    ensures Framing([], 0)
  {
  }

  ghost predicate Follows(s: seq<byte>, done: seq<byte>, rest: seq<byte>) {
    s == done + rest
  }

  lemma FollowsPacket(s: seq<byte>, done: seq<byte>, packet: seq<byte>, rest: seq<byte>)
    ensures Follows(s, done, packet + rest) ==>
              Follows(s, done + packet, rest) && |done + packet| <= |s| && s[|done| + |packet|..] == rest
    ensures packet + [] == packet
  {
  }

  lemma BeforeNothing(s: seq<byte>)
    ensures [] + s == s && Before([], 0, GroupEvents(s)) == GroupEvents(s) && Follows(s, [], s)
  {
  }

  /** A framer that has not come to the end of a packet is still waiting for it. */
  lemma {:induction false} NoPacket(found: seq<Group>, taken: nat, buffer: seq<byte>, expected: nat)
    requires Framing(buffer, expected)
    requires 0 < expected <= |buffer| ==> buffer[3] != 0x02 && buffer[3] != 0x01
    ensures Before(found, taken, GroupEvents(buffer)) == GroupOutcome(found, Waiting, taken + |buffer|)
  {
  }

  /** What a whole packet in front of `left` makes of the call. */
  lemma {:induction false} PacketEvents(found: seq<Group>, taken: nat, packet: seq<byte>, left: seq<byte>)
    requires |packet| >= 4 && packet[1] != 0x80 && |packet| == 4 + packet[1] as int
    ensures var o := Before(found, taken, GroupEvents(packet + left));
            && (packet[3] == 0x02 && |packet| >= 10 ==>
                  o == Before(found + [GroupIn(packet)], taken + |packet|, GroupEvents(left)))
            && ((packet[3] == 0x02 && |packet| < 10) || (packet[3] == 0x01 && |packet| < 9) ==>
                  o == GroupOutcome(found, Raised, taken + |packet|))
            && (packet[3] == 0x01 && |packet| >= 9 ==> o == GroupOutcome(found, Over, taken + |packet|))
  {
  }

  /** A whole packet in front that is not a group ends the call: as over, as too short to unpack, or by
      taking in everything. */
  lemma GroupKinds(first: byte, class_: byte, kind: byte, payload: seq<byte>, rest: seq<byte>)
    requires |payload| <= 255
    ensures var s, n := PacketOf(first, class_, kind, payload) + rest, 4 + |payload|;
            && (|payload| == 0x80 || kind !in {0x01, 0x02} ==>
                  GroupEvents(s) == GroupOutcome([], Waiting, n + |rest|))
            && (|payload| != 0x80 && kind == 0x02 && |payload| < 6 ==> GroupEvents(s) == GroupOutcome([], Raised, n))
            && (|payload| != 0x80 && kind == 0x01 ==>
                  GroupEvents(s) == GroupOutcome([], if |payload| < 5 then Raised else Over, n))
  {
  }

  predicate GroupFits(g: Group) {
    g.start < 0x1_0000 && g.end < 0x1_0000 && |g.uuid| <= 249
  }

  function EncodeGroup(first: byte, class_: byte, g: Group): seq<byte>
    requires GroupFits(g)
  {
    [first, 6 + |g.uuid|, class_, 0x02, g.connection, g.start % 256, g.start / 256, g.end % 256, g.end / 256, g.uuidLen]
    + g.uuid
  }

  function EncodeGroups(first: byte, class_: byte, gs: seq<Group>): seq<byte>
    requires forall g <- gs :: GroupFits(g)
  {
    if gs == [] then [] else EncodeGroup(first, class_, gs[0]) + EncodeGroups(first, class_, gs[1..])
  }

  predicate IsCompletion(c: seq<byte>) {
    |c| >= 9 && c[1] != 0x80 && |c| == 4 + c[1] as int && c[3] == 0x01
  }

  /** The bytes of an encoded group give the group back. */
  lemma EncodedGroup(first: byte, class_: byte, g: Group)
    requires GroupFits(g)
    ensures var packet := EncodeGroup(first, class_, g);
            && |packet| == 10 + |g.uuid| && packet[1] as int == 6 + |g.uuid| && packet[3] == 0x02
            && GroupIn(packet) == g
  {
    var packet := EncodeGroup(first, class_, g);
    assert g.start % 256 + 256 * (g.start / 256) == g.start && g.end % 256 + 256 * (g.end / 256) == g.end;
    assert packet[10..] == g.uuid;
  }

  lemma GroupIsRead(first: byte, class_: byte, g: Group, rest: seq<byte>)
    requires GroupFits(g)
    ensures var n := |EncodeGroup(first, class_, g)|;
            GroupEvents(EncodeGroup(first, class_, g) + rest) ==
            if |g.uuid| == 122 then GroupOutcome([], Waiting, n + |rest|) else Before([g], n, GroupEvents(rest))
  {
    var packet := EncodeGroup(first, class_, g);
    EncodedGroup(first, class_, g);
    hide EncodeGroup, GroupIn, GroupFits, GroupEvents;
    if |g.uuid| == 122 {
      NotFramed(packet + rest);
    } else {
      PacketEvents([], 0, packet, rest);
      BeforeTwice(GroupEvents(packet + rest), g, |packet|, GroupEvents(rest));
    }
  }

  /** Behind a second byte of 0x80 no packet is recognised any more. */
  lemma {:induction false} NotFramed(s: seq<byte>)
    requires |s| >= 2 && s[1] == 0x80
    ensures GroupEvents(s) == GroupOutcome([], Waiting, |s|)
  {
  }

  lemma BeforeTwice(o: GroupOutcome, g: Group, n: nat, more: GroupOutcome)
    requires Before([], 0, o) == Before([] + [g], 0 + n, more)
    ensures o == Before([g], n, more)
  {
    assert [] + o.found == o.found && [] + [g] == [g];
  }

  lemma {:induction false} CompletionIsRead(c: seq<byte>, rest: seq<byte>)
    requires IsCompletion(c)
    ensures GroupEvents(c + rest) == GroupOutcome([], Over, |c|)
  {
    PacketEvents([], 0, c, rest);
    BeforeNothing(c + rest);
    hide GroupEvents, GroupIn;
  }

  lemma BeforeOne(gs: seq<Group>, n: nat, o: GroupOutcome)
    requires gs != []
    ensures var all := Before([gs[0]], n, o);
            all.status == o.status && all.taken == n + o.taken && (o.found == gs[1..] ==> all.found == gs)
    ensures (forall g <- gs :: |g.uuid| != 122) <==> |gs[0].uuid| != 122 && forall g <- gs[1..] :: |g.uuid| != 122
  {
    assert [gs[0]] + gs[1..] == gs;
  }

  /** Any number of group events and then a completion: one call prints every group in order, takes exactly
      the bytes through the completion and says that it is over, if and only if no group has a payload of
      0x80 bytes; otherwise it takes in everything and is still waiting. */
  lemma {:induction false} GroupsThenCompletion(first: byte, class_: byte, gs: seq<Group>, c: seq<byte>,
                                                rest: seq<byte>)
    requires (forall g <- gs :: GroupFits(g)) && IsCompletion(c)
    ensures var o := GroupEvents(EncodeGroups(first, class_, gs) + c + rest);
            if forall g <- gs :: |g.uuid| != 122
            then o == GroupOutcome(gs, Over, |EncodeGroups(first, class_, gs) + c|)
            else o.status == Waiting && o.taken == |EncodeGroups(first, class_, gs) + c + rest|
    decreases |gs|
  {
    hide EncodeGroup, GroupFits, GroupEvents, Before, IsCompletion;
    if gs == [] {
      assert EncodeGroups(first, class_, gs) + c == c;
      CompletionIsRead(c, rest);
    } else {
      var front, more := EncodeGroup(first, class_, gs[0]), EncodeGroups(first, class_, gs[1..]);
      assert EncodeGroups(first, class_, gs) + c == front + (more + c);
      assert EncodeGroups(first, class_, gs) + c + rest == front + (more + c + rest);
      GroupIsRead(first, class_, gs[0], more + c + rest);
      GroupsThenCompletion(first, class_, gs[1..], c, rest);
      BeforeOne(gs, |front|, GroupEvents(more + c + rest));
    }
  }
}
