/** ble_msg_gap_set_scan_response_evt_t: one call over a stream of scan-response packets. The expected
    length is never reset between packets, and fields of some types raise. */
module BgapiScanner {
  import opened Basics
  import opened BgapiPort
  import opened BgapiScan

  // ----- what the packets say -----

  /** The services listed so far in a packet, as sliced, and the UUID to return. */
  datatype Services = Services(slices: seq<seq<byte>>, uuid: seq<byte>)

  /** Field types that cannot be handled: flags and power level without a value (IndexError), and
      manufacturer data, whose printing calls chr on a list (TypeError). */
  predicate FieldRaises(field: seq<byte>)
    requires field != []
  {
    ((field[0] == 0x01 || field[0] == 0x0A) && |field| == 1) || field[0] == 0xFF
  }

  function AfterField(st: Services, field: seq<byte>): (next: Option<Services>)
    requires field != []
    ensures next.None? <==> FieldRaises(field)
  {
    if FieldRaises(field) then None
    else if UuidWidth(field[0]) == 0 then Some(st)
    else
      var slices := st.slices + ServiceSlices(field);
      Some(Services(slices, LastUuid(slices, st.uuid)))
  }

  function LastUuid(slices: seq<seq<byte>>, uuid: seq<byte>): seq<byte> {
    if slices == [] then uuid else Reversed(slices[|slices| - 1])
  }

  predicate NoneEmpty(fields: seq<seq<byte>>) {
    forall i | 0 <= i < |fields| :: fields[i] != []
  }

  function AfterFields(st: Services, fields: seq<seq<byte>>): Option<Services>
    requires NoneEmpty(fields)
    decreases |fields|
  {
    if fields == [] then Some(st)
    else match AfterField(st, fields[0])
         case None => None
         case Some(next) => AfterFields(next, fields[1..])
  }

  /** What a call has found out: the out-values of the function. */
  datatype Found = Found(find: bool, uuid: seq<byte>, sender: seq<byte>, addressType: byte)

  const NOTHING := Found(false, [], [], 0)

  /** One packet; None when it raises. Class 6 packets carry at least eleven bytes of payload in front of
      their advertising data. */
  function AfterPacket(st: Found, packet: seq<byte>): Option<Found>
    requires |packet| >= 4
  {
    if packet[2] != 0x06 then Some(st.(find := true))
    else if |packet| < 15 then None
    else match AfterFields(Services([], st.uuid), Split(packet[15..]))
         case None => None
         case Some(services) => Some(Found(true, services.uuid, packet[6..12], packet[12]))
  }

  predicate AllPackets(packets: seq<seq<byte>>) {
    forall i | 0 <= i < |packets| :: |packets[i]| >= 4
  }

  function AfterPackets(st: Found, packets: seq<seq<byte>>): Option<Found>
    requires AllPackets(packets)
    decreases |packets|
  {
    if packets == [] then Some(st)
    else match AfterPacket(st, packets[0])
         case None => None
         case Some(next) => AfterPackets(next, packets[1..])
  }

  // ----- the packets of a stream -----

  /** Skip to 0x80, take four bytes and as many more as the second of them says, and so on. */
  function Packets(s: seq<byte>): (packets: seq<seq<byte>>)
    ensures AllPackets(packets)
  {
    if s == [] then []
    else if s[0] != 0x80 then Packets(s[1..])
    else if |s| < 2 || |s| < 4 + s[1] as int then []
    else [s[..4 + s[1] as int]] + Packets(s[4 + s[1] as int..])
  }

  /** A packet behind bytes that start none. */
  datatype Spaced = Spaced(noise: seq<byte>, packet: seq<byte>) {
    predicate Fits() {
      && 0x80 !in noise
      && |packet| >= 4 && packet[0] == 0x80 && |packet| == 4 + packet[1] as int
    }
  }

  function Stream(ps: seq<Spaced>): seq<byte> {
    if ps == [] then [] else ps[0].noise + ps[0].packet + Stream(ps[1..])
  }

  lemma {:induction false} PacketsBehindNoise(noise: seq<byte>, rest: seq<byte>)
    requires 0x80 !in noise
    ensures Packets(noise + rest) == Packets(rest)
  {
    if noise == [] {
      assert noise + rest == rest;
    } else {
      assert noise[0] in noise && (noise + rest)[1..] == noise[1..] + rest;
      PacketsBehindNoise(noise[1..], rest);
    }
  }

  lemma {:induction false} PacketInFront(packet: seq<byte>, rest: seq<byte>)
    requires |packet| >= 4 && packet[0] == 0x80 && |packet| == 4 + packet[1] as int
    ensures Packets(packet + rest) == [packet] + Packets(rest)
  {
    var s := packet + rest;
    assert s[..|packet|] == packet && s[|packet|..] == rest;
  }

  /** Nothing, or a packet whose end is missing. */
  predicate Partial(s: seq<byte>) {
    s == [] || (s[0] == 0x80 && (|s| < 2 || |s| < 4 + s[1] as int))
  }

  /** Whole packets come out again whatever lies between them, and what is left of a last one does not. */
  lemma {:induction false} PacketsOfStream(ps: seq<Spaced>, noise: seq<byte>, partial: seq<byte>)
    requires (forall i | 0 <= i < |ps| :: ps[i].Fits()) && 0x80 !in noise && Partial(partial)
    ensures |Packets(Stream(ps) + noise + partial)| == |ps|
    ensures forall i | 0 <= i < |ps| :: Packets(Stream(ps) + noise + partial)[i] == ps[i].packet
    decreases |ps|
  {
    if ps == [] {
      PacketsBehindNoise(noise, partial);
      assert Stream(ps) + noise == noise;
    } else {
      var p, more := ps[0], Stream(ps[1..]) + noise + partial;
      assert Stream(ps) + noise + partial == p.noise + (p.packet + more);
      hide Packets, Stream;
      PacketsOfStream(ps[1..], noise, partial);
      PacketsBehindNoise(p.noise, p.packet + more);
      PacketInFront(p.packet, more);
    }
  }

  // ----- laws -----

  lemma {:induction false} FieldsRaiseIff(st: Services, fields: seq<seq<byte>>)
    requires NoneEmpty(fields)
    ensures AfterFields(st, fields).None? <==> exists i | 0 <= i < |fields| :: FieldRaises(fields[i])
    decreases |fields|
  {
    if fields != [] {
      var next := AfterField(st, fields[0]);
      if next.Some? {
        FieldsRaiseIff(next.value, fields[1..]);
        assert forall i | 1 <= i < |fields| :: fields[i] == fields[1..][i - 1];
      }
    }
    hide AfterField, FieldRaises;
  }

  predicate SomeFieldRaises(fields: seq<seq<byte>>)
    requires NoneEmpty(fields)
  {
    exists i | 0 <= i < |fields| :: FieldRaises(fields[i])
  }

  predicate PacketRaises(packet: seq<byte>)
    requires |packet| >= 4
  {
    packet[2] == 0x06 && (|packet| < 15 || SomeFieldRaises(Split(packet[15..])))
  }

  /** A call raises exactly when some packet does; otherwise it says that it found something exactly when
      there was a whole packet. */
  lemma {:induction false} FoundIffPacket(st: Found, packets: seq<seq<byte>>)
    requires AllPackets(packets)
    ensures match AfterPackets(st, packets)
            case None => exists i | 0 <= i < |packets| :: PacketRaises(packets[i])
            case Some(found) =>
              (forall i | 0 <= i < |packets| :: !PacketRaises(packets[i])) && (found.find <==> st.find || packets != [])
    decreases |packets|
  {
    if packets != [] {
      PacketRaisesIff(st, packets[0]);
      var next := AfterPacket(st, packets[0]);
      if next.Some? {
        FoundIffPacket(next.value, packets[1..]);
        assert forall i | 1 <= i < |packets| :: packets[i] == packets[1..][i - 1];
      }
    }
    hide AfterPacket, PacketRaises;
  }

  lemma PacketRaisesIff(st: Found, packet: seq<byte>)
    requires |packet| >= 4
    ensures match AfterPacket(st, packet)
            case None => PacketRaises(packet)
            case Some(next) => !PacketRaises(packet) && next.find
  {
    if packet[2] == 0x06 && |packet| >= 15 {
      FieldsRaiseIff(Services([], st.uuid), Split(packet[15..]));
    }
  }

  /** A service field makes its first UUID, in wire order, the one to return. */
  lemma ServiceFieldUuid(st: Services, field: seq<byte>)
    requires field != [] && UuidWidth(field[0]) > 0 && ServiceSlices(field) != []
    ensures var w := UuidWidth(field[0]);
            var low := 1 + (|field| - 1) % w;
            match AfterField(st, field)
            case None => false
            case Some(next) => low + w <= |field| && next.uuid == field[low..low + w]
  {
    ServicesTile(field);
    var slices := st.slices + ServiceSlices(field);
    assert slices[|slices| - 1] == ServiceSlices(field)[|ServiceSlices(field)| - 1];
    hide Slices, ServiceSlices, Reversed;
  }

  // ----- what a call returns -----

  /** The UUID that stands first in a service field, if the field holds a whole one. */
  function FirstUuid(field: seq<byte>): (uuid: Option<seq<byte>>)
    requires field != []
  {
    var w := UuidWidth(field[0]);
    if w == 0 || |field| < 1 + w then None
    else
      var low := 1 + LeftOver(w, |field|);
      if low + w <= |field| then Some(field[low..low + w]) else None
  }

  /** The one of the last field that has one, or what was there before. */
  function LastFirstUuid(fields: seq<seq<byte>>, uuid: seq<byte>): seq<byte>
    requires NoneEmpty(fields)
    decreases |fields|
  {
    if fields == [] then uuid
    else LastFirstUuid(fields[1..], if FirstUuid(fields[0]).Some? then FirstUuid(fields[0]).value else uuid)
  }

  predicate UuidIsLast(st: Services) {
    st.slices == [] || st.uuid == Reversed(st.slices[|st.slices| - 1])
  }

  lemma {:induction false} NoSlices(field: seq<byte>, w: nat, end: nat)
    requires w > 0 && end <= |field|
    ensures Slices(field, w, end) == [] <==> end < 1 + w
  {
    hide SliceBackward;
  }

  lemma AfterFieldUuid(st: Services, field: seq<byte>)
    requires field != [] && UuidIsLast(st) && !FieldRaises(field)
    ensures var next := AfterField(st, field);
            && next.Some? && UuidIsLast(next.value)
            && next.value.uuid == if FirstUuid(field).Some? then FirstUuid(field).value else st.uuid
  {
    hide Reversed, Slices, LeftOver, FieldRaises;
    var w := UuidWidth(field[0]);
    if w > 0 {
      NoSlices(field, w, |field|);
      if ServiceSlices(field) != [] {
        ServiceFieldUuid(st, field);
        WidthIs(field[0]);
        LeftOverIsRemainder(w, |field|);
        LastOfBoth(st.slices, ServiceSlices(field));
      } else {
        assert st.slices + [] == st.slices;
      }
    }
  }

  lemma LastOfBoth(a: seq<seq<byte>>, b: seq<seq<byte>>)
    requires b != []
    ensures (a + b)[|a + b| - 1] == b[|b| - 1]
  {
  }

  lemma {:induction false} AfterFieldsUuid(st: Services, fields: seq<seq<byte>>)
    requires NoneEmpty(fields) && UuidIsLast(st)
    ensures match AfterFields(st, fields)
            case None => true
            case Some(next) => next.uuid == LastFirstUuid(fields, st.uuid)
    decreases |fields|
  {
    hide AfterField, FieldRaises, UuidIsLast, FirstUuid;
    if fields != [] && AfterField(st, fields[0]).Some? {
      AfterFieldUuid(st, fields[0]);
      AfterFieldsUuid(AfterField(st, fields[0]).value, fields[1..]);
    }
  }

  /** The advertising fields of a packet, none unless it is a scan response. */
  function FieldsIn(packet: seq<byte>): (fields: seq<seq<byte>>)
    ensures NoneEmpty(fields)
  {
    if |packet| >= 15 && packet[2] == 0x06 then Split(packet[15..]) else []
  }

  /** All of a stream's fields, packet by packet. */
  function FieldsOfAll(packets: seq<seq<byte>>): (fields: seq<seq<byte>>)
    ensures NoneEmpty(fields)
  {
    if packets == [] then [] else FieldsIn(packets[0]) + FieldsOfAll(packets[1..])
  }

  lemma {:induction false} LastFirstUuidAppend(a: seq<seq<byte>>, b: seq<seq<byte>>, uuid: seq<byte>)
    requires NoneEmpty(a) && NoneEmpty(b)
    ensures LastFirstUuid(a + b, uuid) == LastFirstUuid(b, LastFirstUuid(a, uuid))
    decreases |a|
  {
    hide FirstUuid;
    if a == [] {
      assert a + b == b;
    } else {
      assert (a + b)[1..] == a[1..] + b;
      LastFirstUuidAppend(a[1..], b, if FirstUuid(a[0]).Some? then FirstUuid(a[0]).value else uuid);
    }
  }

  /** If a call raises nothing it returns the UUID that stands first, in wire order, in the last service
      field of all its packets that holds a whole one. */
  lemma {:induction false} FoundUuid(st: Found, packets: seq<seq<byte>>)
    requires AllPackets(packets) && AfterPackets(st, packets).Some?
    ensures AfterPackets(st, packets).value.uuid == LastFirstUuid(FieldsOfAll(packets), st.uuid)
    decreases |packets|
  {
    hide AfterPacket, FieldsIn, LastFirstUuid;
    if packets != [] {
      PacketUuid(st, packets[0]);
      FoundUuid(AfterPacket(st, packets[0]).value, packets[1..]);
      LastFirstUuidAppend(FieldsIn(packets[0]), FieldsOfAll(packets[1..]), st.uuid);
    } else {
      NoFieldsUuid(st.uuid);
    }
  }

  lemma {:induction false} NoFieldsUuid(uuid: seq<byte>)
    ensures LastFirstUuid([], uuid) == uuid
  {
  }

  lemma PacketUuid(st: Found, packet: seq<byte>)
    requires |packet| >= 4 && AfterPacket(st, packet).Some?
    ensures AfterPacket(st, packet).value.uuid == LastFirstUuid(FieldsIn(packet), st.uuid)
  {
    hide AfterFields, LastFirstUuid, Split;
    NoFieldsUuid(st.uuid);
    if packet[2] == 0x06 {
      AfterFieldsUuid(Services([], st.uuid), Split(packet[15..]));
    }
  }

  predicate IsScanResponse(packet: seq<byte>) {
    |packet| >= 15 && packet[2] == 0x06
  }

  /** The last scan response among the packets. */
  function LastScanResponse(packets: seq<seq<byte>>): (packet: Option<seq<byte>>)
    ensures packet.Some? ==> IsScanResponse(packet.value)
    decreases |packets|
  {
    if packets == [] then None
    else
      var later := LastScanResponse(packets[1..]);
      if later.Some? then later else if IsScanResponse(packets[0]) then Some(packets[0]) else None
  }

  /** And the address in the last scan response. */
  lemma {:induction false} FoundSender(st: Found, packets: seq<seq<byte>>)
    requires AllPackets(packets) && AfterPackets(st, packets).Some?
    ensures var found := AfterPackets(st, packets).value;
            match LastScanResponse(packets)
            case None => found.sender == st.sender && found.addressType == st.addressType
            case Some(packet) => found.sender == packet[6..12] && found.addressType == packet[12]
    decreases |packets|
  {
    if packets != [] {
      FoundSender(AfterPacket(st, packets[0]).value, packets[1..]);
    }
    hide AfterFields, Split;
  }

  /** What a call leaves on the port: whatever stands behind the packet that raises. */
  function Unread(st: Found, s: seq<byte>): seq<byte>
    decreases |s|
  {
    if s == [] then []
    else if s[0] != 0x80 then Unread(st, s[1..])
    else if |s| < 2 || |s| < 4 + s[1] as int then []
    else match AfterPacket(st, s[..4 + s[1] as int])
         case None => s[4 + s[1] as int..]
         case Some(next) => Unread(next, s[4 + s[1] as int..])
  }

  /** A call stops at the first byte with which the stream so far raises, and takes in everything if there
      is none. */
  lemma {:induction false} StopsWhereItRaises(st: Found, s: seq<byte>)
    ensures |Unread(st, s)| <= |s| && s[|s| - |Unread(st, s)|..] == Unread(st, s)
    ensures AfterPackets(st, Packets(s)).Some? ==> Unread(st, s) == []
    ensures AfterPackets(st, Packets(s)).None? ==>
              AfterPackets(st, Packets(s[..|s| - |Unread(st, s)|])).None?
    ensures forall k | 0 <= k < |s| - |Unread(st, s)| :: AfterPackets(st, Packets(s[..k])).Some?
    decreases |s|, 1
  {
    if s == [] {
    } else if s[0] != 0x80 {
      StopsWhereItRaises(st, s[1..]);
      forall k | 1 <= k <= |s| ensures Packets(s[..k]) == Packets(s[1..][..k - 1]) {
        assert s[..k][1..] == s[1..][..k - 1];
      }
      assert Packets(s[..0]) == [];
    } else {
      PrefixPackets(s);
      if |s| >= 2 && |s| >= 4 + s[1] as int {
        StopsAtPacket(st, s);
      }
    }
    hide AfterPacket;
  }

  /** A prefix holds no packet until the first one is complete. */
  lemma {:induction false} PrefixPackets(s: seq<byte>)
    requires s != [] && s[0] == 0x80
    ensures forall k | 0 <= k <= |s| && (k < 2 || k < 4 + s[1] as int) :: Packets(s[..k]) == []
  {
  }

  lemma {:induction false} StopsAtPacket(st: Found, s: seq<byte>)
    requires |s| >= 2 && s[0] == 0x80 && |s| >= 4 + s[1] as int
    ensures |Unread(st, s)| <= |s| && s[|s| - |Unread(st, s)|..] == Unread(st, s)
    ensures AfterPackets(st, Packets(s)).Some? ==> Unread(st, s) == []
    ensures AfterPackets(st, Packets(s)).None? ==>
              AfterPackets(st, Packets(s[..|s| - |Unread(st, s)|])).None?
    ensures forall k | 0 <= k < |s| - |Unread(st, s)| :: AfterPackets(st, Packets(s[..k])).Some?
    decreases |s|, 0
  {
    var n := 4 + s[1] as int;
    var packet, rest := s[..n], s[n..];
    PrefixPackets(s);
    assert s == packet + rest;
    FirstPacket(st, packet, rest);
    forall k: nat | n <= k <= |s|
      ensures AfterPackets(st, Packets(s[..k])) ==
              match AfterPacket(st, packet)
              case None => None
              case Some(next) => AfterPackets(next, Packets(rest[..k - n]))
    {
      assert s[..k] == packet + rest[..k - n];
      FirstPacket(st, packet, rest[..k - n]);
    }
    if AfterPacket(st, packet).Some? {
      StopsWhereItRaises(AfterPacket(st, packet).value, rest);
    }
    hide AfterPacket, Packets, Unread, AfterPackets;
  }

  // ----- the loops -----

  /** The service-list branch: append the backward slices, then take every service there is. */
  method TakeServices(field: seq<byte>, w: nat, adServices: seq<seq<byte>>, uuid: seq<byte>)
    returns (services: seq<seq<byte>>, last: seq<byte>)
    requires field != [] && w > 0
    ensures services == adServices + Slices(field, w, |field|)
    ensures last == LastUuid(services, uuid)
  {
    services, last := adServices, uuid;
    hide SliceBackward, Reversed;
    ghost var end := |field|;
    SliceCount(w, |field|, 0);
    for i := 0 to (|field| - 1) / w
      invariant 1 <= end <= |field| && end == |field| - i * w
      invariant services + Slices(field, w, end) == adServices + Slices(field, w, |field|)
    {
      SliceCount(w, |field|, i);
      Advance(i, w);
      var slice := SliceBackward(field, -1 - i * w, -1 - w - i * w);
      assert services + ([slice] + Slices(field, w, end - w)) == services + [slice] + Slices(field, w, end - w);
      services := services + [slice];
      end := end - w;
    }
    SliceCount(w, |field|, (|field| - 1) / w);
    assert Slices(field, w, end) == [] && services + [] == services;
    for i := 0 to |services|
      invariant last == LastUuid(services[..i], uuid)
    {
      last := Reversed(services[i]);
    }
    assert services[..|services|] == services;
  }

  lemma Advance(i: nat, w: nat)
    ensures (i + 1) * w == i * w + w
  {
  }

  /** The loop bound is the number of whole slices. */
  lemma SliceCount(w: nat, n: nat, i: nat)
    requires w > 0 && n > 0
    ensures i < (n - 1) / w <==> i * w + w + 1 <= n
  {
    var k, r := (n - 1) / w, (n - 1) % w;
    assert n - 1 == k * w + r;
    if i < k {
      assert (i + 1) * w <= k * w;
    } else {
      assert k * w <= i * w;
    }
  }

  /** The loop over the advertising data; `raised` stands for the IndexError or TypeError of a field. */
  method SplitAndHandle(data: seq<byte>, uuid: seq<byte>)
    returns (raised: bool, adFields: seq<seq<byte>>, last: seq<byte>)
    ensures match AfterFields(Services([], uuid), Split(data))
            case None => raised
            case Some(services) => !raised && adFields == Split(data) && last == services.uuid
  {
    var thisField: seq<byte>, bytesLeft: nat := [], 0;
    var adServices: seq<seq<byte>> := [];
    raised, adFields, last := false, [], uuid;
    ghost var rest := data;
    OpenStart(data);
    hide AfterField, FieldRaises, Split, SplitOpen, AfterFields, NoneEmpty;
    for i := 0 to |data|
      invariant rest == data[i..] && (bytesLeft == 0 || |thisField| + bytesLeft <= 255)
      invariant Split(data) == adFields + SplitOpen(thisField, bytesLeft, rest)
      invariant NoneEmpty(SplitOpen(thisField, bytesLeft, rest))
      invariant AfterFields(Services([], uuid), Split(data))
             == AfterFields(Services(adServices, last), SplitOpen(thisField, bytesLeft, rest))
    {
      var b := data[i];
      assert rest[0] == b && rest[1..] == data[i + 1..];
      OpenStep(thisField, bytesLeft, rest);
      if bytesLeft == 0 {
        bytesLeft, thisField := b, [];
      } else {
        thisField := thisField + [b];
        bytesLeft := bytesLeft - 1;
        if bytesLeft == 0 {
          AfterFieldsCons(Services(adServices, last), thisField, SplitOpen(thisField, 0, rest[1..]));
          raised, adServices, last := HandleField(thisField, adServices, last);
          if raised {
            return;
          }
          adFields := adFields + [thisField];
        }
      }
      rest := rest[1..];
    }
    OpenEnd(thisField, bytesLeft, Services(adServices, last));
    assert adFields + [] == adFields;
  }

  lemma {:induction false} AfterFieldsCons(st: Services, field: seq<byte>, more: seq<seq<byte>>)
    requires field != [] && NoneEmpty([field] + more)
    ensures NoneEmpty(more)
    ensures AfterFields(st, [field] + more) ==
            match AfterField(st, field)
            case None => None
            case Some(next) => AfterFields(next, more)
  {
    hide AfterField;
    var all := [field] + more;
    assert all[1..] == more;
    assert forall i | 0 <= i < |more| :: more[i] == all[i + 1];
  }

  lemma {:induction false} OpenStart(data: seq<byte>)
    ensures SplitOpen([], 0, data) == Split(data) && NoneEmpty(Split(data)) && [] + Split(data) == Split(data)
    ensures data[0..] == data
  {
  }

  /** What one byte of advertising data does to an open field. */
  lemma {:induction false} OpenStep(field: seq<byte>, left: nat, rest: seq<byte>)
    requires rest != []
    ensures left == 0 ==> SplitOpen(field, left, rest) == SplitOpen([], rest[0] as int, rest[1..])
    ensures left > 1 ==> SplitOpen(field, left, rest) == SplitOpen(field + [rest[0]], left - 1, rest[1..])
    ensures left == 1 ==>
              SplitOpen(field, left, rest) == [field + [rest[0]]] + SplitOpen(field + [rest[0]], 0, rest[1..])
  {
    if left == 0 && rest[0] != 0 {
      var n := rest[0] as int;
      if |rest| > n {
        assert rest[1..][..n] == rest[1..1 + n] && rest[1..][n..] == rest[1 + n..];
        assert [] + rest[1..][..n] == rest[1..1 + n];
      }
    } else if left >= 1 && |rest| >= left {
      assert field + rest[..left] == field + [rest[0]] + rest[1..][..left - 1];
      assert rest[left..] == rest[1..][left - 1..];
      assert left == 1 ==> rest[..1] == [rest[0]];
    }
    hide Split;
  }

  lemma {:induction false} OpenEnd(field: seq<byte>, left: nat, st: Services)
    ensures SplitOpen(field, left, []) == [] && NoneEmpty([]) && AfterFields(st, []) == Some(st)
  {
  }

  /** The chain of ifs over the field type. */
  method HandleField(field: seq<byte>, adServices: seq<seq<byte>>, uuid: seq<byte>)
    returns (raised: bool, services: seq<seq<byte>>, last: seq<byte>)
    requires field != []
    ensures match AfterField(Services(adServices, uuid), field)
            case None => raised
            case Some(next) => !raised && next == Services(services, last)
  {
    raised, services, last := false, adServices, uuid;
    hide Slices, LastUuid;
    if field[0] == 0x01 {
      raised := |field| < 2;
    }
    if field[0] == 0x02 || field[0] == 0x03 {
      services, last := TakeServices(field, 2, services, last);
    }
    if field[0] == 0x04 || field[0] == 0x05 {
      services, last := TakeServices(field, 4, services, last);
    }
    if field[0] == 0x06 || field[0] == 0x07 {
      services, last := TakeServices(field, 16, services, last);
    }
    if field[0] == 0x0A {
      raised := |field| < 2;
    }
    if field[0] == 0xFF {
      raised := true;
    }
  }

  // ----- the framer -----

  /** One packet, as the body under the length test handles it. */
  method HandlePacket(packet: seq<byte>, st: Found) returns (raised: bool, next: Found)
    requires |packet| >= 4 && packet[0] == 0x80
    ensures match AfterPacket(st, packet)
            case None => raised
            case Some(found) => !raised && next == found
  {
    raised, next := false, st;
    hide AfterFields, Split;
    var payload := packet[4..];
    if packet[0] >= 0x80 {
      if packet[2] == 0x06 {
        if |payload| < 11 {
          return true, st;
        }
        var data := payload[11..];
        assert data == packet[15..] && payload[2..8] == packet[6..12];
        var fields, uuid;
        raised, fields, uuid := SplitAndHandle(data, st.uuid);
        if raised {
          return;
        }
        next := next.(uuid := uuid, sender := payload[2..8], addressType := payload[8]);
      }
      next := next.(find := true);
    }
  }

  /** Between two bytes: `buffer` is what is there of a packet, and the expected length is its own from the
      second byte on. Before that it is whatever the packet before left behind, or 0, and cannot be met. */
  ghost predicate Framing(buffer: seq<byte>, expected: nat) {
    && (expected == 0 || expected >= 4)
    && (buffer != [] ==> buffer[0] == 0x80)
    && (|buffer| >= 2 ==> expected == 4 + buffer[1] as int && |buffer| < expected)
  }

  /** The scanner: on every stream it does what handling the split-off packets one after the other does. */
  method ScanResponse(p: Port) returns (raised: bool, found: Found)
    modifies p`waiting
    ensures match AfterPackets(NOTHING, Packets(old(p.waiting)))
            case None => raised
            case Some(f) => !raised && found == f
    ensures p.waiting == Unread(NOTHING, old(p.waiting))
  {
    raised, found := false, NOTHING;
    var rxBuffer: seq<byte>, rxExpectedLength: nat := [], 0;
    ghost var s := p.waiting;
    assert [] + s == s;
    hide Packets, AfterPackets, AfterPacket, Unread;
    while p.waiting != []
      invariant Framing(rxBuffer, rxExpectedLength)
      invariant AfterPackets(NOTHING, Packets(s)) == AfterPackets(found, Packets(rxBuffer + p.waiting))
      invariant Unread(NOTHING, s) == Unread(found, rxBuffer + p.waiting)
      decreases |p.waiting|
    {
      ghost var left := p.waiting;
      var b := p.Read();
      assert rxBuffer + [b] + p.waiting == rxBuffer + left;
      if rxBuffer == [] && b == 0x80 {
        rxBuffer := rxBuffer + [b];
      } else if |rxBuffer| == 1 {
        rxBuffer := rxBuffer + [b];
        rxExpectedLength := 4 + rxBuffer[0] as int % 8 + rxBuffer[1] as int;
      } else if |rxBuffer| > 1 {
        rxBuffer := rxBuffer + [b];
      } else {
        SkipByte(found, b, p.waiting);
      }
      if rxExpectedLength > 0 && |rxBuffer| == rxExpectedLength {
        FirstPacket(found, rxBuffer, p.waiting);
        raised, found := HandlePacket(rxBuffer, found);
        if raised {
          return;
        }
        rxBuffer := [];
        assert rxBuffer + p.waiting == p.waiting;
      }
    }
    assert rxBuffer + p.waiting == rxBuffer;
    NoPacketYet(found, rxBuffer, rxExpectedLength);
  }

  lemma {:induction false} SkipByte(st: Found, b: byte, rest: seq<byte>)
    ensures b != 0x80 ==> Packets([] + [b] + rest) == Packets([] + rest)
    ensures b != 0x80 ==> Unread(st, [] + [b] + rest) == Unread(st, [] + rest)
  {
    assert ([] + [b] + rest)[1..] == rest == [] + rest;
  }

  lemma {:induction false} FirstPacket(st: Found, packet: seq<byte>, rest: seq<byte>)
    requires |packet| >= 4 && packet[0] == 0x80 && |packet| == 4 + packet[1] as int
    ensures AfterPackets(st, Packets(packet + rest)) ==
            match AfterPacket(st, packet)
            case None => None
            case Some(next) => AfterPackets(next, Packets(rest))
    ensures Unread(st, packet + rest) ==
            match AfterPacket(st, packet)
            case None => rest
            case Some(next) => Unread(next, rest)
  {
    assert (packet + rest)[..|packet|] == packet && (packet + rest)[|packet|..] == rest;
  }

  lemma {:induction false} NoPacketYet(st: Found, buffer: seq<byte>, expected: nat)
    requires Framing(buffer, expected)
    ensures AfterPackets(st, Packets(buffer)) == Some(st) && Unread(st, buffer) == []
  {
  }
}
