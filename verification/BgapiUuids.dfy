/** Which advertising fields a scan response takes its UUID from, by the numbers of the field types. */
module BgapiUuids {
  import opened Basics
  import opened BgapiPort
  import opened BgapiScan
  import opened BgapiScanner

  /** The types of the service lists with the bytes one of their UUIDs takes: 16, 32 and 128 bits, each as
      a partial and a complete list. */
  predicate ServiceType(kind: byte, width: nat) {
    (kind, width) in {(0x02, 2), (0x03, 2), (0x04, 4), (0x05, 4), (0x06, 16), (0x07, 16)}
  }

  lemma WidthOfType(kind: byte, width: nat)
    requires ServiceType(kind, width)
    ensures UuidWidth(kind) == width > 0
  {
  }

  /** A service field: its type, what is left over next to it, and UUIDs of the type's width. */
  function ServiceField(kind: byte, left: seq<byte>, first: seq<byte>, more: seq<byte>): seq<byte> {
    [kind] + left + first + more
  }

  /** The first whole UUID behind what is left over is the one such a field stands for. */
  lemma FirstOfService(kind: byte, width: nat, left: seq<byte>, first: seq<byte>, more: seq<byte>)
    requires ServiceType(kind, width) && |left| < width == |first| && |more| % width == 0
    ensures FirstUuid(ServiceField(kind, left, first, more)) == Some(first)
  {
    var field := ServiceField(kind, left, first, more);
    WidthOfType(kind, width);
    LeftOverIsRemainder(width, |field|);
    SumRemainder(|left|, width, |more|);
    assert field[1 + |left|..1 + |left| + width] == first;
  }

  lemma SumRemainder(left: nat, w: nat, more: nat)
    requires w in {2, 4, 16} && left < w && more % w == 0
    ensures (left + w + more) % w == left
  {
  }

  /** Without a whole one, and for every other type, it stands for none. */
  lemma NoUuid(kind: byte, content: seq<byte>)
    requires forall width :: ServiceType(kind, width) ==> |content| < width
    ensures FirstUuid([kind] + content) == None
  {
    var width := UuidWidth(kind);
    if width != 0 {
      assert ServiceType(kind, width);
    }
  }

  /** Among the fields of a call the last one with a UUID counts. */
  lemma {:induction false} LastServiceCounts(before: seq<seq<byte>>, field: seq<byte>, after: seq<seq<byte>>,
                                             uuid: seq<byte>)
    requires NoneEmpty(before) && field != [] && NoneEmpty(after) && FirstUuid(field).Some?
    requires forall i | 0 <= i < |after| :: FirstUuid(after[i]) == None
    ensures LastFirstUuid(before + [field] + after, uuid) == FirstUuid(field).value
  {
    hide FirstUuid;
    LastFirstUuidAppend(before + [field], after, uuid);
    LastFirstUuidAppend(before, [field], uuid);
    NoUuidKeeps(after, FirstUuid(field).value);
  }

  lemma {:induction false} NoUuidKeeps(fields: seq<seq<byte>>, uuid: seq<byte>)
    requires NoneEmpty(fields) && forall i | 0 <= i < |fields| :: FirstUuid(fields[i]) == None
    ensures LastFirstUuid(fields, uuid) == uuid
    decreases |fields|
  {
    hide FirstUuid;
    if fields != [] {
      assert FirstUuid(fields[0]) == None;
      NoUuidKeeps(fields[1..], uuid);
    }
  }

  /** The fields that raise: flags (01) and power level (0A) without a value, and manufacturer data (FF). */
  lemma RaisingTypes(st: Services, kind: byte, content: seq<byte>)
    ensures AfterField(st, [kind] + content) == None <==>
              kind == 0xFF || ((kind == 0x01 || kind == 0x0A) && content == [])
  {
    hide UuidWidth;
  }

  /** A field of another type than the service lists and those changes nothing. */
  lemma OtherTypesChangeNothing(st: Services, kind: byte, content: seq<byte>)
    requires kind < 0x02 || kind > 0x07
    ensures var next := AfterField(st, [kind] + content); next == None || next == Some(st)
  {
  }

  // ----- a whole packet -----

  function ScanPacket(command: byte, rssi: byte, kind: byte, sender: seq<byte>, addressType: byte, bond: byte,
                      data: seq<byte>): (packet: seq<byte>)
    requires |sender| == 6 && |data| <= 244
    ensures |packet| == 15 + |data|
  {
    [0x80, 11 + |data|, 0x06, command, rssi, kind] + sender + [addressType, bond, |data|] + data
  }

  /** A scan response alone on the port: the call returns the first UUID of the last service list that has
      one, and the sender's address, as long as no field raises. */
  lemma PacketFound(command: byte, rssi: byte, kind: byte, sender: seq<byte>, addressType: byte, bond: byte,
                    ps: seq<Padded>, tail: seq<byte>, before: seq<seq<byte>>, field: seq<byte>,
                    after: seq<seq<byte>>)
    requires |sender| == 6 && AllFit(ps) && Tail(tail) && |EncodeFields(ps) + tail| <= 244
    requires NoneEmpty(before) && field != [] && NoneEmpty(after) && FieldsOf(ps) == before + [field] + after
    requires FirstUuid(field).Some? && forall i | 0 <= i < |after| :: FirstUuid(after[i]) == None
    requires forall f <- FieldsOf(ps) :: f != [] && !FieldRaises(f)
    ensures var packet := ScanPacket(command, rssi, kind, sender, addressType, bond, EncodeFields(ps) + tail);
            AfterPackets(NOTHING, Packets(packet))
            == Some(Found(true, FirstUuid(field).value, sender, addressType))
  {
    var data := EncodeFields(ps) + tail;
    var packet := ScanPacket(command, rssi, kind, sender, addressType, bond, data);
    hide Packets, AfterFields, FirstUuid, FieldRaises, FieldsOf, EncodeFields, Tail, Split, LastFirstUuid;
    PacketInFront(packet, []);
    assert packet + [] == packet;
    NoPackets();
    SplitEncoded(ps, tail);
    assert packet[15..] == data && packet[6..12] == sender && packet[12] == addressType;
    FieldsRaiseIff(Services([], []), Split(data));
    AfterFieldsUuid(Services([], []), Split(data));
    LastServiceCounts(before, field, after, []);
    OnePacket(packet);
  }

  /** A packet of another class counts as found and says nothing; a scan response whose payload is shorter
      than eleven bytes raises. */
  lemma OtherPackets(st: Found, packet: seq<byte>)
    requires |packet| >= 4
    ensures packet[2] != 0x06 ==> AfterPacket(st, packet) == Some(Found(true, st.uuid, st.sender, st.addressType))
    ensures packet[2] == 0x06 && |packet| < 15 ==> AfterPacket(st, packet) == None
  {
    hide AfterFields, Split;
  }

  lemma NoPackets()
    ensures Packets([]) == []
  {
  }

  lemma OnePacket(packet: seq<byte>)
    requires |packet| >= 4
    ensures AfterPackets(NOTHING, [packet]) == AfterPacket(NOTHING, packet)
  {
    hide AfterPacket;
    assert [packet][1..] == [];
  }
}
