/** The two programs that feed sensor frames to a socket, over mutable state: main.cpp with its branching
    field extraction, and Server.cpp with the branch-free one. */
module SensorLoop {
  import opened Basics
  import opened SensorMessage
  import opened SensorCodec
  import opened Lines
  import opened Pipeline

  /** A field of a line and what is left of the line: both programs get the same ones. */
  lemma FieldStep(line: string, i: nat)
    requires '\n' !in line
    ensures Before(Rest(line, i), ',') == Field(line, i)
    ensures After(Rest(line, i), ',') == Rest(line, i + 1)
    ensures ',' !in Rest(line, i) ==>
              Before(Rest(line, i), '\n') == Field(line, i) && Rest(line, i) == Rest(line, i + 1)
  {
    RestIsField(line, i);
    RestPieces(line, i);
  }

  class SensorSender {
    const stof: Stof
    const sensor: Sensor
    const tcpBuffer: array<byte>
    var sent: seq<seq<byte>>

    ghost predicate Valid() {
      tcpBuffer.Length == BUFSIZ
    }

    function State(): Pipeline.State
      reads this, sensor, tcpBuffer
    {
      Pipeline.State(sensor.Args(), tcpBuffer[..], sent)
    }

    /** The buffer starts out with whatever is in memory. */
    constructor (stof: Stof)
      ensures Valid() && fresh(sensor) && fresh(tcpBuffer)
      ensures State().args == CLEARED && State().sent == [] && this.stof == stof
    {
      this.stof := stof;
      sensor := new Sensor();
      tcpBuffer := new byte[BUFSIZ];
      sent := [];
    }

    /** One of the five blocks of main.cpp: take the text up to the comma and step over it, or the whole
        of a line without one. */
    method TakeField(i: nat, s: string, ghost line: string, ghost was: Args) returns (threw: bool, rest: string)
      requires Valid() && i < 5 && '\n' !in line && s == Rest(line, i)
      requires FieldsRead(was, line, i, stof, true, sensor.Args())
      modifies sensor
      ensures threw ==> |Readings(line, stof)| == i && sensor.Args() == old(sensor.Args())
      ensures !threw ==> rest == Rest(line, i + 1) && FieldsRead(was, line, i + 1, stof, true, sensor.Args())
    {
      FieldStep(line, i);
      ReadingAt(was, line, i, stof, true, sensor.Args());
      hide FieldsRead, Rest, Field, Readings, Before, After, Sensor.Args;
      var commaSeen := ',' in s;
      var f := stof(if commaSeen then Before(s, ',') else Before(s, '\n'));
      threw, rest := f.None?, s;
      if !threw {
        sensor.SetArg(i, if !NonZero(f.value) then MINUS_ONE else f.value);
        if commaSeen {
          rest := After(s, ',');
        }
      }
    }

    /** The try block: false when a conversion threw half way, with the fields before it already set. */
    method ParseLine(line: string) returns (complete: bool)
      requires Valid() && '\n' !in line
      modifies sensor
      ensures sensor.Args() == Overlay(old(sensor.Args()), 0, Replaced(Readings(line, stof)))
      ensures complete <==> |Readings(line, stof)| == 5
    {
      ghost var was := sensor.Args();
      FieldsReadBounds(was, line, stof, true);
      hide *;
      var threw, s := TakeField(0, line, line, was);
      if threw { return false; }
      threw, s := TakeField(1, s, line, was);
      if threw { return false; }
      threw, s := TakeField(2, s, line, was);
      if threw { return false; }
      threw, s := TakeField(3, s, line, was);
      if threw { return false; }
      threw, s := TakeField(4, s, line, was);
      complete := !threw;
    }

    method Send()
      requires Valid()
      modifies this, sensor`cachedSize
      ensures sent == old(sent) + [tcpBuffer[..|Serialize(sensor.Args())|]]
      ensures |Serialize(sensor.Args())| <= FRAME
    {
      SerializeFull(sensor.Args());
      var size := sensor.ByteSize();
      sent := sent + [tcpBuffer[..size]];
    }

    method SerializeToBuffer()
      requires Valid()
      modifies tcpBuffer
      ensures |Serialize(sensor.Args())| <= FRAME
      ensures tcpBuffer[..] == Stamped(old(tcpBuffer[..]), Serialize(sensor.Args()))
    {
      SerializeFull(sensor.Args());
      SerializeLength(sensor.Args(), 0);
      ghost var was := tcpBuffer[..];
      hide *;
      var end := sensor.SerializeWithCachedSizesToArray(tcpBuffer, 0);
      StampedWhenOverwritten(was, Serialize(sensor.Args()), tcpBuffer[..]);
    }

    /** One round of the loop, on the text the serial port delivered. */
    method Iterate(text: string)
      requires Valid()
      modifies this, sensor, tcpBuffer
      ensures State() == Step(old(State()), text, stof)
    {
      var chars := new char[|text|](i requires 0 <= i < |text| => text[i]);
      assert chars[..] == text;
      var n := UniqueNewlines(chars);
      var buff1 := chars[..n];
      var buff2 := After(buff1, '\n');
      if '\n' in buff2 {
        var s := if Occurs(buff1, "set") then Before(buff2, '\n') else Before(buff1, '\n');
        assert ChosenLine(text) == Some(s);
        hide ChosenLine, Collapse, After, Before, Occurs;
        var complete := ParseLine(s);
        if complete {
          SerializeToBuffer();
        }
        Send();
        hide Serialize, Readings, Replaced, Overlay, Stamped, Sensor.Args;
      }
    }

    method RunAll(texts: seq<string>)
      requires Valid()
      modifies this, sensor, tcpBuffer
      ensures State() == Run(old(State()), texts, stof)
    {
      hide Step;
      for k := 0 to |texts|
        invariant State() == Run(old(State()), texts[..k], stof)
      {
        assert texts[..k + 1][..k] == texts[..k];
        Iterate(texts[k]);
      }
      assert texts[..|texts|] == texts;
    }
  }

  /** Server.cpp keeps a zero reading as it is, cuts fields without looking whether a comma is there, and
      sends nothing when a conversion throws. */
  class ServerSender {
    const stof: Stof
    const sensor: Sensor
    const tcpBuffer: array<byte>
    var sent: seq<seq<byte>>

    ghost predicate Valid() {
      tcpBuffer.Length == BUFSIZ
    }

    constructor (stof: Stof)
      ensures Valid() && fresh(sensor) && fresh(tcpBuffer)
      ensures sensor.Args() == CLEARED && sent == [] && this.stof == stof
    {
      this.stof := stof;
      sensor := new Sensor();
      tcpBuffer := new byte[BUFSIZ];
      sent := [];
    }

    method TakeField(i: nat, s: string, ghost line: string, ghost was: Args) returns (threw: bool, rest: string)
      requires Valid() && i < 5 && '\n' !in line && s == Rest(line, i)
      requires FieldsRead(was, line, i, stof, false, sensor.Args())
      modifies sensor
      ensures threw ==> |Readings(line, stof)| == i && sensor.Args() == old(sensor.Args())
      ensures !threw ==> rest == Rest(line, i + 1) && FieldsRead(was, line, i + 1, stof, false, sensor.Args())
    {
      FieldStep(line, i);
      ReadingAt(was, line, i, stof, false, sensor.Args());
      hide FieldsRead, Rest, Field, Readings, Before, After, Sensor.Args;
      var f := stof(Before(s, ','));
      threw, rest := f.None?, s;
      if !threw {
        sensor.SetArg(i, f.value);
        rest := After(s, ',');
      }
    }

    /** Every frame the server sends is the serialization of the reading just parsed, and it is a full
        frame exactly when none of its five values is zero. */
    method Iterate(text: string, realSize: int)
      requires Valid()
      modifies this, sensor, tcpBuffer
      ensures var line := ServerLine(text, realSize);
              var rs := Readings(line, stof);
              && sensor.Args() == Overlay(old(sensor.Args()), 0, rs)
              && (|rs| < 5 ==> sent == old(sent) && tcpBuffer[..] == old(tcpBuffer[..]))
              && (|rs| == 5 ==> sent == old(sent) + [Serialize(rs)]
                                && (|Serialize(rs)| == FRAME <==> forall b <- rs :: NonZero(b)))
    {
      var pch2 := if 0 <= realSize <= |text| then text[..realSize] else text;
      var line := Before(After(pch2, '\n'), '\n');
      OverlayAt(sensor.Args(), Readings(line, stof));
      assert line == ServerLine(text, realSize);
      hide *;
      var complete := ParseLine(line);
      if complete {
        SerializeAndSend();
      }
    }

    method ParseLine(line: string) returns (complete: bool)
      requires Valid() && '\n' !in line
      modifies sensor
      ensures |Readings(line, stof)| <= 5
      ensures sensor.Args() == Overlay(old(sensor.Args()), 0, Readings(line, stof))
      ensures complete <==> |Readings(line, stof)| == 5
    {
      ghost var was := sensor.Args();
      FieldsReadBounds(was, line, stof, false);
      hide *;
      var threw, s := TakeField(0, line, line, was);
      if threw { return false; }
      threw, s := TakeField(1, s, line, was);
      if threw { return false; }
      threw, s := TakeField(2, s, line, was);
      if threw { return false; }
      threw, s := TakeField(3, s, line, was);
      if threw { return false; }
      threw, s := TakeField(4, s, line, was);
      complete := !threw;
    }

    method SerializeAndSend()
      requires Valid()
      modifies this, sensor`cachedSize, tcpBuffer
      ensures sent == old(sent) + [Serialize(sensor.Args())]
      ensures |Serialize(sensor.Args())| == FRAME <==> forall b <- sensor.Args() :: NonZero(b)
    {
      SerializeFull(sensor.Args());
      SerializeLength(sensor.Args(), 0);
      hide *;
      var end := sensor.SerializeWithCachedSizesToArray(tcpBuffer, 0);
      StampedWhenOverwritten(old(tcpBuffer[..]), Serialize(sensor.Args()), tcpBuffer[..]);
      var size := sensor.ByteSize();
      assert tcpBuffer[..size] == tcpBuffer[..][..size];
      sent := sent + [tcpBuffer[..size]];
    }
  }

  /** Run on the same line from equal arguments, the try blocks of the two programs complete or throw alike
      and set the same arguments, except that main.cpp replaces the zeros it reads. */
  method ParseWithBoth(main: SensorSender, server: ServerSender, line: string)
    returns (mainComplete: bool, serverComplete: bool)
    requires main.Valid() && server.Valid() && main.sensor != server.sensor && main.stof == server.stof
    requires main.sensor.Args() == server.sensor.Args() && '\n' !in line
    modifies main.sensor, server.sensor
    ensures mainComplete == serverComplete == (|Readings(line, main.stof)| == 5)
    ensures forall i | 0 <= i < 5 :: main.sensor.Args()[i] ==
              if i < |Readings(line, main.stof)| then ReplaceZero(server.sensor.Args()[i]) else server.sensor.Args()[i]
  {
    OverlayAt(main.sensor.Args(), Readings(line, main.stof));
    OverlayAt(main.sensor.Args(), Replaced(Readings(line, main.stof)));
    hide *;
    mainComplete := main.ParseLine(line);
    serverComplete := server.ParseLine(line);
  }

  /** The text between the first newline and the one behind it, out of the bytes the port returned. A
      negative size is the largest unsigned one. */
  function ServerLine(text: string, realSize: int): (line: string)
    ensures '\n' !in line
  {
    Before(After(if 0 <= realSize <= |text| then text[..realSize] else text, '\n'), '\n')
  }

  /** The first i fields of the line could be read and are what the arguments were overwritten with. */
  ghost predicate FieldsRead(was: Args, line: string, i: nat, stof: Stof, replace: bool, now: Args) {
    i <= |Readings(line, stof)| && now == Overlay(was, 0, Adjusted(replace, Readings(line, stof)[..i]))
  }

  function Adjusted(replace: bool, rs: seq<Bits>): (zs: seq<Bits>)
    ensures |zs| == |rs|
  {
    if replace then Replaced(rs) else rs
  }

  lemma FieldsReadBounds(was: Args, line: string, stof: Stof, replace: bool)
    ensures FieldsRead(was, line, 0, stof, replace, was) && Rest(line, 0) == line
    ensures Adjusted(true, Readings(line, stof)) == Replaced(Readings(line, stof))
    ensures Adjusted(false, Readings(line, stof)) == Readings(line, stof)
    ensures forall i: nat, now :: FieldsRead(was, line, i, stof, replace, now) ==>
              i <= |Readings(line, stof)| <= 5
              && (|Readings(line, stof)| == i ==> now == Overlay(was, 0, Adjusted(replace, Readings(line, stof))))
  {
  }

  lemma {:induction false} ReadingsFromAt(line: string, i: nat, k: nat, stof: Stof)
    requires i + k < 5 && k <= |ReadingsFrom(line, i, stof)|
    decreases k
    ensures match stof(Field(line, i + k))
            case None => |ReadingsFrom(line, i, stof)| == k
            case Some(b) => k < |ReadingsFrom(line, i, stof)| && ReadingsFrom(line, i, stof)[k] == b
  {
    if k > 0 {
      ReadingsFromAt(line, i + 1, k - 1, stof);
    }
  }

  lemma ReadingAt(was: Args, line: string, i: nat, stof: Stof, replace: bool, now: Args)
    requires i < 5 && FieldsRead(was, line, i, stof, replace, now)
    ensures match stof(Field(line, i))
            case None => |Readings(line, stof)| == i
            case Some(b) => FieldsRead(was, line, i + 1, stof, replace, now[i := if replace then ReplaceZero(b) else b])
  {
    ReadingsPrefix(line, i, stof);
    hide Readings, Replaced, Adjusted, Overlay, Field, ReplaceZero;
    if i < |Readings(line, stof)| {
      OverlayNext(was, Readings(line, stof)[..i], Readings(line, stof)[i], replace);
    }
  }

  lemma ReadingsPrefix(line: string, i: nat, stof: Stof)
    requires i < 5 && i <= |Readings(line, stof)|
    ensures var all := Readings(line, stof);
            match stof(Field(line, i))
            case None => |all| == i
            case Some(b) => i < |all| && all[i] == b && all[..i + 1] == all[..i] + [b]
  {
    ReadingsFromAt(line, 0, i, stof);
    hide ReadingsFrom, Field;
  }

  lemma StampedWhenOverwritten(was: seq<byte>, bytes: seq<byte>, now: seq<byte>)
    requires Overwritten(was, 0, bytes, now)
    ensures |bytes| <= |was| && now == Stamped(was, bytes)
  {
  }

  lemma OverlayNext(m: Args, read: seq<Bits>, b: Bits, replace: bool)
    requires |read| < 5
    ensures Overlay(m, 0, Adjusted(replace, read))[|read| := if replace then ReplaceZero(b) else b]
         == Overlay(m, 0, Adjusted(replace, read + [b]))
  {
  }
}
