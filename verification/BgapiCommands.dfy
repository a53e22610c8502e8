/** The command encoders: one packed byte string per command, written to the port in one go. */
module BgapiCommands {
  import opened Basics
  import opened BgapiPort

  /** The commands with the integers and byte lists their callers pass. */
  datatype Command =
    | GetInfo
    | Reset(bootInDfu: int)
    | Hello
    | AttributesRead(handle: int, offset: int)
    | AttributesReadType(handle: int)
    | Disconnect(connection: int)
    | FindInformation(connection: int, start: int, end: int)
    | IndicateConfirm(connection: int)
    | ReadByGroupType(connection: int, start: int, end: int, uuid: seq<int>)
    | ReadByHandle(connection: int, chrHandle: int)
    | ReadByType(connection: int, start: int, end: int, uuid: seq<int>)
    | WriteCommand(connection: int, attHandle: int, data: seq<int>)
    | ConnectDirect(address: seq<int>, addressType: int, intervalMin: int, intervalMax: int, timeout: int, latency: int)
    | Discover(mode: int)
    | EndProcedure
    | SetMode(discover: int, connect: int)
    | SetScanParameters(interval: int, window: int, active: int)

  // ----- struct.pack -----

  predicate Byte(v: int) {
    0 <= v < 0x100
  }

  predicate Short(v: int) {
    0 <= v < 0x1_0000
  }

  predicate Bytes(vs: seq<int>) {
    forall i | 0 <= i < |vs| :: Byte(vs[i])
  }

  /** Format H, little-endian. */
  function H(v: int): (s: seq<byte>)
    requires Short(v)
    ensures |s| == 2 && Word(s[0], s[1]) == v
  {
    [v % 256, v / 256]
  }

  function ToBytes(vs: seq<int>): (s: seq<byte>)
    requires Bytes(vs)
    ensures |s| == |vs| && forall i | 0 <= i < |s| :: s[i] == vs[i]
  {
    seq(|vs|, i requires 0 <= i < |vs| => vs[i])
  }

  /** Every value is in the range of its format character, and an address has six bytes to take. Anything
      else raises: struct.error, or IndexError for the address. */
  predicate InRange(c: Command) {
    match c
    case GetInfo => true
    case Reset(boot) => Byte(boot)
    case Hello => true
    case AttributesRead(handle, offset) => Short(handle) && Short(offset)
    case AttributesReadType(handle) => Short(handle)
    case Disconnect(connection) => Byte(connection)
    case FindInformation(connection, start, end) => Byte(connection) && Short(start) && Short(end)
    case IndicateConfirm(connection) => Byte(connection)
    case ReadByGroupType(connection, start, end, uuid) =>
      Byte(connection) && Short(start) && Short(end) && Bytes(uuid) && Byte(0x06 + |uuid|)
    case ReadByHandle(connection, chrHandle) => Byte(connection) && Short(chrHandle)
    case ReadByType(connection, start, end, uuid) =>
      Byte(connection) && Short(start) && Short(end) && Bytes(uuid) && Byte(0x06 + |uuid|)
    case WriteCommand(connection, attHandle, data) =>
      Byte(connection) && Short(attHandle) && Bytes(data) && Byte(0x04 + |data|)
    case ConnectDirect(address, addressType, intervalMin, intervalMax, timeout, latency) =>
      |address| >= 6 && Bytes(address[..6]) && Byte(addressType)
      && Short(intervalMin) && Short(intervalMax) && Short(timeout) && Short(latency)
    case Discover(mode) => Byte(mode)
    case EndProcedure => true
    case SetMode(discover, connect) => Byte(discover) && Byte(connect)
    case SetScanParameters(interval, window, active) => Short(interval) && Short(window) && Byte(active)
  }

  // ----- the encoders -----

  function Packed(c: Command): seq<byte>
    requires InRange(c)
  {
    match c
    case GetInfo => [0x00, 0x00, 0x00, 0x08]
    case Reset(boot) => [0, 1, 0, 0, boot]
    case Hello => [0, 0, 0, 1]
    case AttributesRead(handle, offset) => [0x00, 0x04, 0x02, 0x01] + H(handle) + H(offset)
    case AttributesReadType(handle) => [0x00, 0x02, 0x02, 0x02] + H(handle)
    case Disconnect(connection) => [0, 1, 3, 0, connection]
    case FindInformation(connection, start, end) => [0x00, 0x05, 0x04, 0x03, connection] + H(start) + H(end)
    case IndicateConfirm(connection) => [0x00, 0x01, 0x04, 0x07, connection]
    case ReadByGroupType(connection, start, end, uuid) =>
      [0x00, 0x06 + |uuid|, 0x04, 0x01, connection] + H(start) + H(end) + [|uuid|] + ToBytes(uuid)
    case ReadByHandle(connection, chrHandle) => [0x00, 0x03, 0x04, 0x04, connection] + H(chrHandle)
    case ReadByType(connection, start, end, uuid) =>
      [0x00, 0x06 + |uuid|, 0x04, 0x02, connection] + H(start) + H(end) + [|uuid|] + ToBytes(uuid)
    case WriteCommand(connection, attHandle, data) =>
      [0x00, 0x04 + |data|, 0x04, 0x06, connection] + H(attHandle) + [|data|] + ToBytes(data)
    case ConnectDirect(address, addressType, intervalMin, intervalMax, timeout, latency) =>
      [0x00, 0x0F, 0x06, 0x03] + ToBytes(address[..6]) + [addressType]
      + H(intervalMin) + H(intervalMax) + H(timeout) + H(latency)
    case Discover(mode) => [0, 1, 6, 2, mode]
    case EndProcedure => [0, 0, 6, 4]
    case SetMode(discover, connect) => [0, 2, 6, 1, discover, connect]
    case SetScanParameters(interval, window, active) => [0, 5, 6, 7] + H(interval) + H(window) + [active]
  }

  // ----- packing by format -----

  /** The values for a run of equal characters in a format: "<5BHH" takes a run of bytes and one of words. */
  datatype Run = RunB(values: seq<int>) | RunH(values: seq<int>)

  function Joined(a: Option<seq<byte>>, b: Option<seq<byte>>): Option<seq<byte>> {
    if a == None || b == None then None else Some(a.value + b.value)
  }

  /** None is struct.error: a value is not in the range of its character. */
  function PackRun(run: Run): Option<seq<byte>>
    decreases |run.values|
  {
    if run.values == [] then Some([])
    else
      var v, more := run.values[0], run.values[1..];
      match run
      case RunB(_) => Joined(if Byte(v) then Some([v]) else None, PackRun(RunB(more)))
      case RunH(_) => Joined(if Short(v) then Some(H(v)) else None, PackRun(RunH(more)))
  }

  function Pack(runs: seq<Run>): Option<seq<byte>> {
    if runs == [] then Some([]) else Joined(PackRun(runs[0]), Pack(runs[1..]))
  }

  /** The pack call of each encoder. */
  function RunsOf(c: Command): seq<Run>
    requires c.ConnectDirect? ==> |c.address| >= 6
  {
    match c
    case GetInfo => [RunB([0x00, 0x00, 0x00, 0x08])]
    case Reset(boot) => [RunB([0, 1, 0, 0, boot])]
    case Hello => [RunB([0, 0, 0, 1])]
    case AttributesRead(handle, offset) => [RunB([0x00, 0x04, 0x02, 0x01]), RunH([handle, offset])]
    case AttributesReadType(handle) => [RunB([0x00, 0x02, 0x02, 0x02]), RunH([handle])]
    case Disconnect(connection) => [RunB([0, 1, 3, 0, connection])]
    case FindInformation(connection, start, end) =>
      [RunB([0x00, 0x05, 0x04, 0x03, connection]), RunH([start, end])]
    case IndicateConfirm(connection) => [RunB([0x00, 0x01, 0x04, 0x07, connection])]
    case ReadByGroupType(connection, start, end, uuid) =>
      [RunB([0x00, 0x06 + |uuid|, 0x04, 0x01, connection]), RunH([start, end]), RunB([|uuid|] + uuid)]
    case ReadByHandle(connection, chrHandle) => [RunB([0x00, 0x03, 0x04, 0x04, connection]), RunH([chrHandle])]
    case ReadByType(connection, start, end, uuid) =>
      [RunB([0x00, 0x06 + |uuid|, 0x04, 0x02, connection]), RunH([start, end]), RunB([|uuid|] + uuid)]
    case WriteCommand(connection, attHandle, data) =>
      [RunB([0x00, 0x04 + |data|, 0x04, 0x06, connection]), RunH([attHandle]), RunB([|data|] + data)]
    case ConnectDirect(address, addressType, intervalMin, intervalMax, timeout, latency) =>
      [RunB([0x00, 0x0F, 0x06, 0x03] + address[..6] + [addressType]),
       RunH([intervalMin, intervalMax, timeout, latency])]
    case Discover(mode) => [RunB([0, 1, 6, 2, mode])]
    case EndProcedure => [RunB([0, 0, 6, 4])]
    case SetMode(discover, connect) => [RunB([0, 2, 6, 1, discover, connect])]
    case SetScanParameters(interval, window, active) =>
      [RunB([0, 5, 6, 7]), RunH([interval, window]), RunB([active])]
  }

  lemma {:induction false} PackB(vs: seq<int>)
    ensures PackRun(RunB(vs)) == if Bytes(vs) then Some(ToBytes(vs)) else None
    decreases |vs|
  {
    if vs != [] {
      PackB(vs[1..]);
      assert vs == [vs[0]] + vs[1..];
      if Bytes(vs) { assert ToBytes(vs) == [vs[0]] + ToBytes(vs[1..]); }
    }
  }

  predicate Shorts(vs: seq<int>) {
    forall i | 0 <= i < |vs| :: Short(vs[i])
  }

  function Words(vs: seq<int>): seq<byte>
    requires Shorts(vs)
  {
    if vs == [] then [] else H(vs[0]) + Words(vs[1..])
  }

  lemma {:induction false} PackH(vs: seq<int>)
    ensures PackRun(RunH(vs)) == if Shorts(vs) then Some(Words(vs)) else None
    decreases |vs|
  {
    hide H;
    if vs != [] {
      PackH(vs[1..]);
      assert vs == [vs[0]] + vs[1..];
    }
  }

  lemma {:induction false} WordsOf(v: int, vs: seq<int>)
    ensures Shorts([v] + vs) <==> Short(v) && Shorts(vs)
    ensures Shorts([v] + vs) ==> Words([v] + vs) == H(v) + Words(vs)
  {
    hide H;
    assert ([v] + vs)[1..] == vs && ([v] + vs)[0] == v;
    assert forall i | 0 <= i < |vs| :: vs[i] == ([v] + vs)[i + 1];
  }

  lemma {:induction false} PackMore(a: Run, more: seq<Run>)
    ensures Pack([a] + more) == Joined(PackRun(a), Pack(more))
  {
    assert ([a] + more)[1..] == more;
    hide PackRun;
  }

  lemma {:induction false} PackLast(a: Run)
    ensures Pack([a]) == PackRun(a)
  {
    assert [a][1..] == [];
    if PackRun(a) != None { assert PackRun(a).value + [] == PackRun(a).value; }
    hide PackRun;
  }

  lemma PackOne(bs: seq<int>)
    ensures Pack([RunB(bs)]) == if Bytes(bs) then Some(ToBytes(bs)) else None
  {
    PackB(bs);
    PackLast(RunB(bs));
  }

  lemma PackTwo(bs: seq<int>, hs: seq<int>)
    ensures Pack([RunB(bs), RunH(hs)]) == if Bytes(bs) && Shorts(hs) then Some(ToBytes(bs) + Words(hs)) else None
  {
    hide Pack, PackRun;
    PackB(bs);
    PackH(hs);
    PackLast(RunH(hs));
    PackMore(RunB(bs), [RunH(hs)]);
    assert [RunB(bs)] + [RunH(hs)] == [RunB(bs), RunH(hs)];
  }

  lemma PackThree(bs: seq<int>, hs: seq<int>, cs: seq<int>)
    ensures Pack([RunB(bs), RunH(hs), RunB(cs)]) ==
            if Bytes(bs) && Shorts(hs) && Bytes(cs) then Some(ToBytes(bs) + Words(hs) + ToBytes(cs)) else None
  {
    hide Pack, PackRun, Bytes, Shorts, ToBytes, Words;
    PackB(bs);
    PackH(hs);
    PackOne(cs);
    PackMore(RunB(bs), [RunH(hs), RunB(cs)]);
    PackMore(RunH(hs), [RunB(cs)]);
    assert [RunB(bs)] + [RunH(hs), RunB(cs)] == [RunB(bs), RunH(hs), RunB(cs)];
    assert [RunH(hs)] + [RunB(cs)] == [RunH(hs), RunB(cs)];
    if Bytes(bs) && Shorts(hs) && Bytes(cs) {
      assert ToBytes(bs) + (Words(hs) + ToBytes(cs)) == ToBytes(bs) + Words(hs) + ToBytes(cs);
    }
  }

  lemma WordsOne(v: int)
    ensures Shorts([v]) <==> Short(v)
    ensures Short(v) ==> Words([v]) == H(v)
  {
    WordsOf(v, []);
    assert [v] + [] == [v];
    hide H;
  }

  lemma WordsTwo(v: int, w: int)
    ensures Shorts([v, w]) <==> Short(v) && Short(w)
    ensures Short(v) && Short(w) ==> Words([v, w]) == H(v) + H(w)
  {
    WordsOne(w);
    WordsOf(v, [w]);
    assert [v] + [w] == [v, w];
    hide H, Words, Shorts, Short;
  }

  lemma BytesOf(v: int, vs: seq<int>)
    ensures Bytes([v] + vs) <==> Byte(v) && Bytes(vs)
    ensures Bytes([v] + vs) ==> ToBytes([v] + vs) == [v] + ToBytes(vs)
  {
    assert ([v] + vs)[0] == v && forall i | 0 <= i < |vs| :: vs[i] == ([v] + vs)[i + 1];
  }

  /** The five values in front of most commands, the first four of them constant or a length. */
  lemma BytesOfHeader(a: int, b: int, c: int, d: int, e: int)
    ensures Bytes([a, b, c, d, e]) <==> Byte(a) && Byte(b) && Byte(c) && Byte(d) && Byte(e)
    ensures Bytes([a, b, c, d, e]) ==> ToBytes([a, b, c, d, e]) == [a, b, c, d, e]
  {
    var s := [a, b, c, d, e];
    assert s[0] == a && s[1] == b && s[2] == c && s[3] == d && s[4] == e;
  }

  lemma Regroup(a: seq<byte>, b: seq<byte>, c: seq<byte>, d: seq<byte>, e: seq<byte>)
    ensures a + (b + c) == a + b + c
    ensures a + (b + c) + (d + e) == a + b + c + d + e
    ensures a + b + (d + e) == a + b + d + e
  {
  }

  lemma PackListCommand(c: Command)
    requires c.ReadByGroupType? || c.ReadByType? || c.WriteCommand?
    ensures Pack(RunsOf(c)) == if InRange(c) then Some(Packed(c)) else None
  {
    hide Pack, H, Words, Shorts, ToBytes, Bytes;
    match c
    case ReadByGroupType(connection, start, end, uuid) =>
      PackThree([0x00, 0x06 + |uuid|, 0x04, 0x01, connection], [start, end], [|uuid|] + uuid);
      BytesOfHeader(0x00, 0x06 + |uuid|, 0x04, 0x01, connection);
      WordsTwo(start, end);
      BytesOf(|uuid|, uuid);
      if InRange(c) {
        Regroup([0x00, 0x06 + |uuid|, 0x04, 0x01, connection], H(start), H(end), [|uuid|], ToBytes(uuid));
      }
    case ReadByType(connection, start, end, uuid) =>
      PackThree([0x00, 0x06 + |uuid|, 0x04, 0x02, connection], [start, end], [|uuid|] + uuid);
      BytesOfHeader(0x00, 0x06 + |uuid|, 0x04, 0x02, connection);
      WordsTwo(start, end);
      BytesOf(|uuid|, uuid);
      if InRange(c) {
        Regroup([0x00, 0x06 + |uuid|, 0x04, 0x02, connection], H(start), H(end), [|uuid|], ToBytes(uuid));
      }
    case WriteCommand(connection, attHandle, data) =>
      PackThree([0x00, 0x04 + |data|, 0x04, 0x06, connection], [attHandle], [|data|] + data);
      BytesOfHeader(0x00, 0x04 + |data|, 0x04, 0x06, connection);
      WordsOne(attHandle);
      BytesOf(|data|, data);
      if InRange(c) {
        Regroup([0x00, 0x04 + |data|, 0x04, 0x06, connection], H(attHandle), [], [|data|], ToBytes(data));
      }
    case _ =>
  }

  lemma PackWordCommand(c: Command)
    requires c.AttributesRead? || c.AttributesReadType? || c.FindInformation? || c.ReadByHandle? || c.SetScanParameters?
    ensures Pack(RunsOf(c)) == if InRange(c) then Some(Packed(c)) else None
  {
    hide Pack, H, Words, Shorts;
    match c
    case AttributesRead(handle, offset) =>
      PackTwo([0x00, 0x04, 0x02, 0x01], [handle, offset]);
      WordsTwo(handle, offset);
      assert ToBytes([0x00, 0x04, 0x02, 0x01]) == [0x00, 0x04, 0x02, 0x01];
      if InRange(c) { Regroup([0x00, 0x04, 0x02, 0x01], H(handle), H(offset), [], []); }
    case AttributesReadType(handle) =>
      PackTwo([0x00, 0x02, 0x02, 0x02], [handle]);
      WordsOne(handle);
      assert ToBytes([0x00, 0x02, 0x02, 0x02]) == [0x00, 0x02, 0x02, 0x02];
    case FindInformation(connection, start, end) =>
      PackTwo([0x00, 0x05, 0x04, 0x03, connection], [start, end]);
      BytesOfHeader(0x00, 0x05, 0x04, 0x03, connection);
      WordsTwo(start, end);
      if InRange(c) { Regroup([0x00, 0x05, 0x04, 0x03, connection], H(start), H(end), [], []); }
    case ReadByHandle(connection, chrHandle) =>
      PackTwo([0x00, 0x03, 0x04, 0x04, connection], [chrHandle]);
      BytesOfHeader(0x00, 0x03, 0x04, 0x04, connection);
      WordsOne(chrHandle);
    case SetScanParameters(interval, window, active) =>
      PackThree([0, 5, 6, 7], [interval, window], [active]);
      WordsTwo(interval, window);
      BytesOf(active, []);
      assert [active] + [] == [active];
      assert ToBytes([0, 5, 6, 7]) == [0, 5, 6, 7];
      if InRange(c) { Regroup([0, 5, 6, 7], H(interval), H(window), [], []); }
    case _ =>
  }

  lemma PackConnectDirect(c: Command)
    requires c.ConnectDirect? && |c.address| >= 6
    ensures Pack(RunsOf(c)) == if InRange(c) then Some(Packed(c)) else None
  {
    hide Pack, H, Words, Shorts;
    var bs := [0x00, 0x0F, 0x06, 0x03] + c.address[..6] + [c.addressType];
    PackTwo(bs, [c.intervalMin, c.intervalMax, c.timeout, c.latency]);
    ConnectBytes(c.address[..6], c.addressType);
    WordsTwo(c.timeout, c.latency);
    WordsOf(c.intervalMax, [c.timeout, c.latency]);
    WordsOf(c.intervalMin, [c.intervalMax, c.timeout, c.latency]);
    assert [c.intervalMax] + [c.timeout, c.latency] == [c.intervalMax, c.timeout, c.latency];
    assert [c.intervalMin] + [c.intervalMax, c.timeout, c.latency]
        == [c.intervalMin, c.intervalMax, c.timeout, c.latency];
    hide Bytes, ToBytes;
    if InRange(c) {
      var x, a, b, d, e := ToBytes(bs), H(c.intervalMin), H(c.intervalMax), H(c.timeout), H(c.latency);
      assert x + (a + (b + (d + e))) == x + a + b + d + e;
    }
  }

  lemma ConnectBytes(address: seq<int>, addressType: int)
    requires |address| == 6
    ensures var bs := [0x00, 0x0F, 0x06, 0x03] + address + [addressType];
            && (Bytes(bs) <==> Bytes(address) && Byte(addressType))
            && (Bytes(bs) ==> ToBytes(bs) == [0x00, 0x0F, 0x06, 0x03] + ToBytes(address) + [addressType])
  {
    var bs := [0x00, 0x0F, 0x06, 0x03] + address + [addressType];
    assert bs[10] == addressType && forall i | 0 <= i < 6 :: address[i] == bs[i + 4];
  }

  lemma PackByteCommand(c: Command)
    requires c.GetInfo? || c.Reset? || c.Hello? || c.Disconnect? || c.IndicateConfirm? || c.Discover?
          || c.EndProcedure? || c.SetMode?
    ensures Pack(RunsOf(c)) == if InRange(c) then Some(Packed(c)) else None
  {
    hide Pack, ToBytes, Bytes;
    PackOne(RunsOf(c)[0].values);
    match c
    case Reset(boot) => BytesOfHeader(0, 1, 0, 0, boot);
    case Disconnect(connection) => BytesOfHeader(0, 1, 3, 0, connection);
    case IndicateConfirm(connection) => BytesOfHeader(0x00, 0x01, 0x04, 0x07, connection);
    case Discover(mode) => BytesOfHeader(0, 1, 6, 2, mode);
    case SetMode(discover, connect) =>
      assert [0] + [2, 6, 1, discover, connect] == [0, 2, 6, 1, discover, connect];
      BytesOf(0, [2, 6, 1, discover, connect]);
      BytesOfHeader(2, 6, 1, discover, connect);
    case _ => ConstantBytes();
  }

  lemma ConstantBytes()
    ensures Bytes([0x00, 0x00, 0x00, 0x08]) && ToBytes([0x00, 0x00, 0x00, 0x08]) == [0x00, 0x00, 0x00, 0x08]
    ensures Bytes([0, 0, 0, 1]) && ToBytes([0, 0, 0, 1]) == [0, 0, 0, 1]
    ensures Bytes([0, 0, 6, 4]) && ToBytes([0, 0, 6, 4]) == [0, 0, 6, 4]
  {
  }

  /** From the formats: an encoder raises exactly when a value is out of the range of its character, and
      otherwise packs the command. */
  lemma PackIs(c: Command)
    requires c.ConnectDirect? ==> |c.address| >= 6
    ensures Pack(RunsOf(c)) == if InRange(c) then Some(Packed(c)) else None
  {
    if c.ReadByGroupType? || c.ReadByType? || c.WriteCommand? {
      PackListCommand(c);
    } else if c.AttributesRead? || c.AttributesReadType? || c.FindInformation? || c.ReadByHandle?
           || c.SetScanParameters? {
      PackWordCommand(c);
    } else if c.ConnectDirect? {
      PackConnectDirect(c);
    } else {
      PackByteCommand(c);
    }
  }

  method Send(p: Port, c: Command) returns (raised: bool)
    modifies p`written
    ensures raised <==> !InRange(c)
    ensures p.written == old(p.written) + if InRange(c) then Packed(c) else []
  {
    if c.ConnectDirect? && |c.address| < 6 {
      return true;
    }
    PackIs(c);
    var packet := Pack(RunsOf(c));
    raised := packet == None;
    if !raised {
      p.Write(packet.value);
    }
  }

  // ----- laws -----

  predicate Whole(s: seq<byte>) {
    |s| >= 4 && s[0] == 0 && |s| == 4 + s[1] as int
  }

  /** Every encoder's length byte counts the bytes behind its four header bytes. */
  lemma LengthByte(c: Command)
    requires InRange(c)
    ensures Whole(Packed(c))
  {
    hide H, ToBytes;
  }

  function WordAt(s: seq<byte>, i: nat): int
    requires i + 2 <= |s|
  {
    Word(s[i], s[i + 1])
  }

  /** The command a packet stands for, by its class and command bytes. */
  function Unpacked(s: seq<byte>): Option<Command>
    requires Whole(s)
  {
    match (s[2], s[3])
    case (0x00, 0x08) => Some(GetInfo)
    case (0x00, 0x00) => if |s| < 5 then None else Some(Reset(s[4]))
    case (0x00, 0x01) => Some(Hello)
    case (0x02, 0x01) => if |s| < 8 then None else Some(AttributesRead(WordAt(s, 4), WordAt(s, 6)))
    case (0x02, 0x02) => if |s| < 6 then None else Some(AttributesReadType(WordAt(s, 4)))
    case (0x03, 0x00) => if |s| < 5 then None else Some(Disconnect(s[4]))
    case (0x04, 0x03) => if |s| < 9 then None else Some(FindInformation(s[4], WordAt(s, 5), WordAt(s, 7)))
    case (0x04, 0x07) => if |s| < 5 then None else Some(IndicateConfirm(s[4]))
    case (0x04, 0x01) => if |s| < 10 then None else Some(ReadByGroupType(s[4], WordAt(s, 5), WordAt(s, 7), s[10..]))
    case (0x04, 0x04) => if |s| < 7 then None else Some(ReadByHandle(s[4], WordAt(s, 5)))
    case (0x04, 0x02) => if |s| < 10 then None else Some(ReadByType(s[4], WordAt(s, 5), WordAt(s, 7), s[10..]))
    case (0x04, 0x06) => if |s| < 8 then None else Some(WriteCommand(s[4], WordAt(s, 5), s[8..]))
    case (0x06, 0x03) =>
      if |s| < 19 then None
      else Some(ConnectDirect(s[4..10], s[10], WordAt(s, 11), WordAt(s, 13), WordAt(s, 15), WordAt(s, 17)))
    case (0x06, 0x02) => if |s| < 5 then None else Some(Discover(s[4]))
    case (0x06, 0x04) => Some(EndProcedure)
    case (0x06, 0x01) => if |s| < 6 then None else Some(SetMode(s[4], s[5]))
    case (0x06, 0x07) => if |s| < 9 then None else Some(SetScanParameters(WordAt(s, 4), WordAt(s, 6), s[8]))
    case _ => None
  }

  /** What of a command goes over the wire: all of it, but only six bytes of an address. */
  function OnWire(c: Command): Command
    requires InRange(c)
  {
    if c.ConnectDirect? then c.(address := c.address[..6]) else c
  }

  lemma UnpackPackedLists(c: Command)
    requires InRange(c) && (c.ReadByGroupType? || c.ReadByType? || c.WriteCommand? || c.ConnectDirect?)
    ensures Whole(Packed(c)) && Unpacked(Packed(c)) == Some(OnWire(c))
  {
    LengthByte(c);
    hide H, ToBytes, Word;
    var s := Packed(c);
    match c
    case ReadByGroupType(_, _, _, uuid) => assert s[10..] == ToBytes(uuid) == uuid;
    case ReadByType(_, _, _, uuid) => assert s[10..] == ToBytes(uuid) == uuid;
    case WriteCommand(_, _, data) => assert s[8..] == ToBytes(data) == data;
    case ConnectDirect(address, _, _, _, _, _) => assert s[4..10] == ToBytes(address[..6]) == address[..6];
  }

  /** An encoded command can be told from every other one, and says all of its values. */
  lemma UnpackPacked(c: Command)
    requires InRange(c)
    ensures Whole(Packed(c)) && Unpacked(Packed(c)) == Some(OnWire(c))
  {
    if c.ReadByGroupType? || c.ReadByType? || c.WriteCommand? || c.ConnectDirect? {
      UnpackPackedLists(c);
    } else {
      LengthByte(c);
    }
    hide H, ToBytes, Word;
  }

  predicate AllInRange(cs: seq<Command>) {
    forall i | 0 <= i < |cs| :: InRange(cs[i])
  }

  function PackedAll(cs: seq<Command>): seq<byte>
    requires AllInRange(cs)
  {
    if cs == [] then [] else Packed(cs[0]) + PackedAll(cs[1..])
  }

  /** Cutting a stream by its length bytes, and reading each packet. */
  function UnpackedAll(s: seq<byte>): seq<Option<Command>> {
    if |s| < 4 || s[0] != 0 || |s| < 4 + s[1] as int then []
    else [Unpacked(s[..4 + s[1] as int])] + UnpackedAll(s[4 + s[1] as int..])
  }

  /** Commands written back to back are recovered, all of them and in order. */
  lemma {:induction false} CommandsAreRecovered(cs: seq<Command>)
    requires AllInRange(cs)
    ensures UnpackedAll(PackedAll(cs)) == seq(|cs|, i requires 0 <= i < |cs| => Some(OnWire(cs[i])))
    decreases |cs|
  {
    if cs != [] {
      hide Packed, Unpacked, OnWire, InRange;
      UnpackPacked(cs[0]);
      CommandsAreRecovered(cs[1..]);
      UnpackFirst(Packed(cs[0]), PackedAll(cs[1..]));
    }
    hide UnpackedAll, Unpacked, Packed, OnWire, InRange;
  }

  lemma {:induction false} UnpackFirst(first: seq<byte>, more: seq<byte>)
    requires Whole(first)
    ensures UnpackedAll(first + more) == [Unpacked(first)] + UnpackedAll(more)
  {
  }
}
