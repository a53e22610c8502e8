/** The generated Sensor code over mutable streams: the goto-threaded parser, the two serializers, and
    the operations that copy and merge. Every method is proved against the functions of SensorMessage. */
module SensorCodec {
  import opened Basics
  import opened WireFormat
  import opened SensorMessage

  /** A coded input stream over `data`, the bytes up to the current limit. Only data[position..bufferEnd]
      is in the buffer; the fast paths look no further, which is why they may miss what is really there. */
  class CodedInputStream {
    const data: seq<byte>
    const recursionBudget: nat
    var position: nat
    var bufferEnd: nat
    var lastTag: uint32
    var legitimateEnd: bool

    ghost predicate Valid()
      reads this`position, this`bufferEnd
    {
      position <= bufferEnd <= |data|
    }

    function Rest(): seq<byte>
      requires Valid()
      reads this`position, this`bufferEnd
    {
      data[position..]
    }

    constructor (data: seq<byte>, recursionBudget: nat, buffered: nat)
      requires buffered <= |data|
      ensures Valid() && Rest() == data && this.recursionBudget == recursionBudget && !legitimateEnd
    {
      this.data, this.recursionBudget := data, recursionBudget;
      position, bufferEnd, lastTag, legitimateEnd := 0, buffered, 0, false;
    }

    /** Moves over n bytes; any amount of what follows may be in the buffer afterwards. */
    method AdvanceAcrossBuffers(n: nat)
      requires Valid() && n <= |Rest()|
      modifies this`position, this`bufferEnd
      ensures Valid() && Rest() == old(Rest())[n..]
    {
      position := position + n;
      var end :| position <= end <= |data|;
      bufferEnd := end;
    }

    method ReadTagFallback() returns (tag: uint32)
      requires Valid()
      modifies this`position, this`bufferEnd, this`legitimateEnd
      ensures Valid() && tag == ReadTag(old(Rest())).value && Rest() == old(Rest())[ReadTag(old(Rest())).size..]
      ensures legitimateEnd == (old(legitimateEnd) || ReadTag(old(Rest())).atEnd)
    {
      var t := ReadTag(Rest());
      AdvanceAcrossBuffers(t.size);
      legitimateEnd := legitimateEnd || t.atEnd;
      tag := t.value;
    }

    method ReadTagWithCutoff(cutoff: uint32) returns (tag: uint32, atMostCutoff: bool)
      requires Valid()
      modifies this
      ensures Valid() && tag == ReadTag(old(Rest())).value && Rest() == old(Rest())[ReadTag(old(Rest())).size..]
      ensures tag != 0 ==> (atMostCutoff <==> tag <= cutoff)
      ensures lastTag == tag && legitimateEnd == (old(legitimateEnd) || ReadTag(old(Rest())).atEnd)
    {
      if position < bufferEnd {
        var first := data[position];
        assert first == Rest()[0];
        if 0 < first < 0x80 {
          lastTag, position := first, position + 1;
          return first, cutoff >= 0x7f || first <= cutoff;
        }
        if cutoff >= 0x80 && position + 1 < bufferEnd && first >= 0x80 && data[position + 1] < 0x80 {
          TwoByteTag(Rest());
          tag := 0x80 * (data[position + 1] as int) + (first - 0x80);
          lastTag, position := tag, position + 2;
          return tag, cutoff >= 0x3fff || tag <= cutoff;
        }
      }
      tag := ReadTagFallback();
      lastTag := tag;
      // the subtraction wraps around at zero
      atMostCutoff := (tag - 1) % 0x1_0000_0000 < cutoff;
    }

    /** Takes the tag when it is `expected` and in sight; says no without moving otherwise. */
    method ExpectTag(expected: uint32) returns (hit: bool)
      requires Valid()
      modifies this`position
      ensures Valid()
      ensures hit ==> Rest() == old(Rest())[ReadTag(old(Rest())).size..] && ReadTag(old(Rest())).value == expected
      ensures hit ==> old(Rest()) != []
      ensures !hit ==> Rest() == old(Rest())
    {
      if expected < 0x80 {
        hit := position < bufferEnd && data[position] == expected;
        if hit {
          position := position + 1;
        }
      } else if expected < 0x4000 {
        hit := position + 2 <= bufferEnd && data[position] == 0x80 + expected % 0x80
               && data[position + 1] == expected / 0x80;
        if hit {
          TwoByteTag(Rest());
          position := position + 2;
        }
      } else {
        hit := false;
      }
    }

    /** Yes only at the true end, and only when the stream knows that it is there. */
    method ExpectAtEnd() returns (hit: bool)
      requires Valid()
      modifies this`lastTag, this`legitimateEnd
      ensures hit ==> Rest() == [] && lastTag == 0 && legitimateEnd
      ensures !hit ==> lastTag == old(lastTag) && legitimateEnd == old(legitimateEnd)
    {
      var knowsLimit: bool := *;
      hit := position == bufferEnd == |data| && knowsLimit;
      if hit {
        lastTag, legitimateEnd := 0, true;
      }
    }

    method ReadFloat() returns (read: bool, value: Bits)
      requires Valid()
      modifies this`position, this`bufferEnd
      ensures Valid() && (read <==> 4 <= |old(Rest())|)
      ensures read ==> value == FromLittleEndian32(old(Rest())[..4]) && Rest() == old(Rest())[4..]
    {
      read, value := 4 <= |Rest()|, 0;
      if read {
        value := FromLittleEndian32(Rest()[..4]);
        AdvanceAcrossBuffers(4);
      }
    }

    method Skip(tag: uint32) returns (skipped: bool)
      requires Valid()
      modifies this`position, this`bufferEnd
      ensures Valid() && skipped == SkipField(old(Rest()), tag, recursionBudget).Some?
      ensures skipped ==> Rest() == old(Rest())[SkipField(old(Rest()), tag, recursionBudget).value..]
    {
      var n := SkipField(Rest(), tag, recursionBudget);
      skipped := n.Some?;
      if skipped {
        AdvanceAcrossBuffers(n.value);
      }
    }
  }

  lemma TwoByteTag(s: seq<byte>)
    requires 2 <= |s| && s[0] >= 0x80 && s[1] < 0x80
    ensures ReadTag(s) == Tag(0x80 * (s[1] as int) + (s[0] - 0x80), 2, false)
  {
    assert s[1..][0] == s[1];
    assert DecodeVarint(s[1..], 9) == Varint(s[1], 1);
  }

  const FIELD_NUMBERS := 0x2000_0000

  /** The tag of a float field: its number and wire type fixed32. */
  function FloatTag(fieldNumber: nat): (tag: uint32)
    requires 1 <= fieldNumber < FIELD_NUMBERS
    ensures fieldNumber <= 5 ==> tag == ArgTag(fieldNumber - 1) && EncodeVarint(tag) == [tag]
  {
    8 * fieldNumber + 5
  }

  class CodedOutputStream {
    var written: seq<byte>

    method WriteFloat(fieldNumber: nat, value: Bits)
      requires 1 <= fieldNumber < FIELD_NUMBERS
      modifies this
      ensures written == old(written) + FloatBytes(fieldNumber, value)
    {
      written := written + EncodeVarint(FloatTag(fieldNumber));
      written := written + LittleEndian32(value);
    }

    /** One guarded write of the stream serializer. */
    method WriteUnlessZero(fieldNumber: nat, value: Bits)
      requires 1 <= fieldNumber <= 5
      modifies this
      ensures written == old(written) + ArgBytes(fieldNumber - 1, value)
    {
      ArgBytesAre(fieldNumber - 1, value);
      if NonZero(value) {
        WriteFloat(fieldNumber, value);
      }
    }
  }

  /** `now` is `was` with the bytes from `at` on overwritten by `bytes`, and nothing else changed. */
  ghost predicate Overwritten(was: seq<byte>, at: nat, bytes: seq<byte>, now: seq<byte>) {
    at + |bytes| <= |was| && now == was[..at] + bytes + was[at + |bytes|..]
  }

  lemma OverwrittenMore(was: seq<byte>, at: nat, done: seq<byte>, now: seq<byte>, more: seq<byte>, later: seq<byte>)
    requires Overwritten(was, at, done, now) && Overwritten(now, at + |done|, more, later)
    ensures Overwritten(was, at, done + more, later)
  {
    assert now[..at + |done|] == was[..at] + done;
    assert now[at + |done| + |more|..] == was[at + |done + more|..];
  }

  lemma OverwrittenOne(was: seq<byte>, at: nat, b: byte, now: seq<byte>)
    requires at < |was| && now == was[at := b]
    ensures Overwritten(was, at, [b], now)
  {
  }

  lemma OverwrittenRange(was: seq<byte>, at: nat, done: seq<byte>, now: seq<byte>)
    requires Overwritten(was, at, done, now)
    ensures at + |done| <= |was| == |now|
  {
  }

  lemma OverwrittenSame(was: seq<byte>, at: nat, done: seq<byte>, now: seq<byte>)
    requires Overwritten(was, at, done, now)
    ensures Overwritten(was, at, done + [], now)
  {
    assert done + [] == done;
  }

  lemma OverwrittenNot(was: seq<byte>, at: nat)
    requires at <= |was|
    ensures Overwritten(was, at, [], was)
  {
  }

  /** Writes one byte behind the `done` bytes written since `start`. */
  method PutByte(target: array<byte>, at: nat, b: byte, ghost was: seq<byte>, ghost start: nat, ghost done: seq<byte>)
    requires Overwritten(was, start, done, target[..]) && at == start + |done| < target.Length
    modifies target
    ensures Overwritten(was, start, done + [b], target[..])
  {
    ghost var now := target[..];
    OverwrittenRange(was, start, done, now);
    target[at] := b;
    OverwrittenOne(now, at, b, target[..]);
    hide Overwritten;
    OverwrittenMore(was, start, done, now, [b], target[..]);
  }

  lemma {:induction false} EncodeVarintStep(done: seq<byte>, v: nat)
    ensures v >= 0x80 ==> done + EncodeVarint(v) == done + [0x80 + v % 0x80] + EncodeVarint(v / 0x80)
    ensures v < 0x80 ==> EncodeVarint(v) == [v]
  {
  }

  /** Seven bits at a time, lowest first; every byte but the last has its top bit set. */
  method WriteVarint32ToArray(value: uint32, target: array<byte>, at: nat) returns (end: nat)
    requires at + |EncodeVarint(value)| <= target.Length
    modifies target
    ensures end == at + |EncodeVarint(value)|
    ensures Overwritten(old(target[..]), at, EncodeVarint(value), target[..])
  {
    var v: nat := value;
    end := at;
    ghost var was, done: seq<byte> := target[..], [];
    OverwrittenNot(was, at);
    hide Overwritten, EncodeVarint;
    while v >= 0x80
      invariant done + EncodeVarint(v) == EncodeVarint(value) && end == at + |done|
      invariant Overwritten(was, at, done, target[..])
    {
      EncodeVarintStep(done, v);
      PutByte(target, end, 0x80 + v % 0x80, was, at, done);
      done := done + [0x80 + v % 0x80];
      v := v / 0x80;
      end := end + 1;
    }
    EncodeVarintStep(done, v);
    PutByte(target, end, v, was, at, done);
    end := end + 1;
  }

  method WriteLittleEndian32ToArray(value: uint32, target: array<byte>, at: nat) returns (end: nat)
    requires at + 4 <= target.Length
    modifies target
    ensures end == at + 4 && Overwritten(old(target[..]), at, LittleEndian32(value), target[..])
  {
    var bytes := LittleEndian32(value);
    target[at], target[at + 1], target[at + 2], target[at + 3] := bytes[0], bytes[1], bytes[2], bytes[3];
    end := at + 4;
    hide LittleEndian32;
  }

  /** A tagged float on the wire. */
  function FloatBytes(fieldNumber: nat, value: Bits): seq<byte>
    requires 1 <= fieldNumber < FIELD_NUMBERS
  {
    EncodeVarint(FloatTag(fieldNumber)) + LittleEndian32(value)
  }

  /** Writes one tagged float at target[at..] and returns the offset behind it. */
  method WriteFloatToArray(fieldNumber: nat, value: Bits, target: array<byte>, at: nat) returns (end: nat)
    requires 1 <= fieldNumber < FIELD_NUMBERS
    requires at + |FloatBytes(fieldNumber, value)| <= target.Length
    modifies target
    ensures end == at + |FloatBytes(fieldNumber, value)|
    ensures Overwritten(old(target[..]), at, FloatBytes(fieldNumber, value), target[..])
  {
    ghost var was := target[..];
    hide Overwritten, EncodeVarint, LittleEndian32, FloatTag;
    end := WriteVarint32ToArray(FloatTag(fieldNumber), target, at);
    ghost var now := target[..];
    end := WriteLittleEndian32ToArray(value, target, end);
    OverwrittenMore(was, at, EncodeVarint(FloatTag(fieldNumber)), now, LittleEndian32(value), target[..]);
  }

  lemma ArgBytesAre(i: nat, value: Bits)
    requires i < 5
    ensures i + 1 < FIELD_NUMBERS
    ensures ArgBytes(i, value) == if NonZero(value) then FloatBytes(i + 1, value) else []
  {
  }

  /** One guarded write of the array serializer, behind the `done` bytes written since `start`. */
  method WriteUnlessZeroToArray(i: nat, value: Bits, target: array<byte>, at: nat,
                         ghost was: seq<byte>, ghost start: nat, ghost done: seq<byte>) returns (end: nat)
    requires i < 5 && Overwritten(was, start, done, target[..]) && at == start + |done|
    requires at + |ArgBytes(i, value)| <= target.Length
    modifies target
    ensures end == at + |ArgBytes(i, value)|
    ensures Overwritten(was, start, done + ArgBytes(i, value), target[..])
  {
    ghost var now := target[..];
    end := at;
    ArgBytesAre(i, value);
    OverwrittenRange(was, start, done, now);
    hide *;
    if NonZero(value) {
      end := WriteFloatToArray(i + 1, value, target, at);
      OverwrittenMore(was, start, done, now, FloatBytes(i + 1, value), target[..]);
    } else {
      OverwrittenSame(was, start, done, now);
    }
  }

  /** Where the control flow goes after an argument: into the next argument, out of the switch, or out of
      the parser. */
  datatype Jump = ArgTagSeen | Break | Success | Failure

  /** What being at an exit of the parser says about the plain parse. */
  ghost predicate Arrived(after: Jump, plain: Outcome, args: SensorMessage.Args, lastTag: uint32, rest: seq<byte>) {
    match after
    case Success => plain.ok && plain.args == args && plain.lastTag == lastTag && plain.rest == rest
    case Failure => plain == Failed(args)
    case Break => true
    case ArgTagSeen => false
  }

  lemma EndOfParse(after: Jump, plain: Outcome, args: SensorMessage.Args, lastTag: uint32, rest: seq<byte>)
    requires Arrived(after, plain, args, lastTag, rest) && after != Break
    ensures plain.args == args && (plain.ok <==> after == Success)
    ensures after == Success ==> plain.lastTag == lastTag && plain.rest == rest
  {
  }

  class Sensor {
    var arg0: Bits
    var arg1: Bits
    var arg2: Bits
    var arg3: Bits
    var arg4: Bits
    var cachedSize: nat

    function Args(): SensorMessage.Args
      reads this
    {
      FiveArgs(arg0, arg1, arg2, arg3, arg4)
    }

    constructor ()
      ensures Args() == CLEARED
    {
      arg0, arg1, arg2, arg3, arg4, cachedSize := 0, 0, 0, 0, 0, 0;
    }

    method Clear()
      modifies this
      ensures Args() == CLEARED && cachedSize == old(cachedSize)
    {
      arg0, arg1, arg2, arg3, arg4 := 0, 0, 0, 0, 0;
    }

    method SetArg(i: nat, value: Bits)
      requires i < 5
      modifies this
      ensures Args() == old(Args())[i := value] && cachedSize == old(cachedSize)
    {
      match i
      case 0 => arg0 := value;
      case 1 => arg1 := value;
      case 2 => arg2 := value;
      case 3 => arg3 := value;
      case 4 => arg4 := value;
    }

    /** The switch over the field number: which argument the tag is of, or 0 for everything unusual. */
    static method SwitchTarget(tag: uint32, atMostCutoff: bool) returns (field: nat)
      requires tag != 0 ==> (atMostCutoff <==> tag <= 127)
      ensures field <= 5 && (field == 0 <==> !IsArgTag(tag))
      ensures field > 0 ==> tag == ArgTag(field - 1) && !EndsMessage(tag)
    {
      field := 0;
      if atMostCutoff {
        match tag / 8
        case 1 => if tag == 13 { field := 1; }
        case 2 => if tag == 21 { field := 2; }
        case 3 => if tag == 29 { field := 3; }
        case 4 => if tag == 37 { field := 4; }
        case 5 => if tag == 45 { field := 5; }
        case _ =>
      }
    }

    /** The generated parser. A field above 0 names the jump target in front of the read of argument
        field - 1, which is reached through the switch or straight from the argument before it. */
    method MergePartialFromCodedStream(input: CodedInputStream) returns (ok: bool)
      requires input.Valid()
      modifies this, input
      ensures input.Valid()
      ensures var plain := Parse(old(input.Rest()), old(Args()), input.recursionBudget);
              && ok == plain.ok && Args() == plain.args
              && (ok ==> input.lastTag == plain.lastTag && input.Rest() == plain.rest
                         && input.legitimateEnd == (old(input.legitimateEnd) || plain.legitimateEnd))
    {
      hide Parse, Args, CodedInputStream.Rest;
      ghost var plain := Parse(input.Rest(), Args(), input.recursionBudget);
      var after := Break;
      while after == Break
        invariant input.Valid()
        invariant after == Break ==>
                    Parse(input.Rest(), Args(), input.recursionBudget) == plain
                    && input.legitimateEnd == old(input.legitimateEnd)
        invariant Arrived(after, plain, Args(), input.lastTag, input.Rest())
        invariant after == Success ==> input.legitimateEnd == (old(input.legitimateEnd) || plain.legitimateEnd)
        decreases after == Break, |input.Rest()|
      {
        after := ParseRound(input, plain);
      }
      ok := after == Success;
      EndOfParse(after, plain, Args(), input.lastTag, input.Rest());
    }

    /** One turn of the loop. */
    method ParseRound(input: CodedInputStream, ghost plain: Outcome) returns (after: Jump)
      requires input.Valid() && Parse(input.Rest(), Args(), input.recursionBudget) == plain
      modifies this, input
      ensures input.Valid() && Arrived(after, plain, Args(), input.lastTag, input.Rest())
      ensures after == Success ==> input.legitimateEnd == (old(input.legitimateEnd) || plain.legitimateEnd)
      ensures after == Break ==> Parse(input.Rest(), Args(), input.recursionBudget) == plain
      ensures after == Break ==> |input.Rest()| < |old(input.Rest())| && input.legitimateEnd == old(input.legitimateEnd)
    {
      ParseByTag(input.Rest(), Args(), input.recursionBudget);
      ghost var atEnd := ReadTag(input.Rest()).atEnd;
      hide *;
      var tag, atMostCutoff := input.ReadTagWithCutoff(127);
      var field := SwitchTarget(tag, atMostCutoff);
      if field == 0 {
        after := HandleUnusual(tag, atEnd, input, plain);
      } else {
        after := ParseArgsFrom(field, input, plain);
      }
    }

    /** The default case: a tag that ends the message, or a field to skip. */
    method HandleUnusual(tag: uint32, ghost atEnd: bool, input: CodedInputStream, ghost plain: Outcome)
      returns (after: Jump)
      requires input.Valid() && input.lastTag == tag
      requires plain == AfterUnusual(tag, atEnd, input.Rest(), Args(), input.recursionBudget)
      modifies input`position, input`bufferEnd
      ensures input.Valid() && Arrived(after, plain, Args(), input.lastTag, input.Rest())
      ensures after == Success ==> plain.legitimateEnd == atEnd
      ensures after == Break ==> tag != 0 && Parse(input.Rest(), Args(), input.recursionBudget) == plain
      ensures after == Break ==> |input.Rest()| <= |old(input.Rest())|
    {
      hide Parse, SkipField, Args, EndsMessage;
      if EndsMessage(tag) {
        return Success;
      }
      var skipped := input.Skip(tag);
      after := if skipped then Break else Failure;
    }

    /** The jump targets: the read of argument field - 1, and from there straight on to the next argument
        for as long as its tag is in sight. */
    method ParseArgsFrom(field: nat, input: CodedInputStream, ghost plain: Outcome) returns (after: Jump)
      requires 1 <= field <= 5 && input.Valid()
      requires AfterTag(ArgTag(field - 1), input.Rest(), Args(), input.recursionBudget) == plain
      modifies this, input
      ensures input.Valid()
      ensures Arrived(after, plain, Args(), input.lastTag, input.Rest())
      ensures after == Success ==> input.legitimateEnd && plain.legitimateEnd
      ensures after == Break ==> Parse(input.Rest(), Args(), input.recursionBudget) == plain
      ensures after == Break ==> |input.Rest()| < |old(input.Rest())| && input.legitimateEnd == old(input.legitimateEnd)
    {
      hide Parse, AfterTag, ReadTag, SkipField, Args, IsArgTag, ArgTag, CodedInputStream.Rest;
      if field == 1 {
        after := ReadArgThenExpect(0, input, plain);
        if after != ArgTagSeen { return; }
      }
      if field <= 2 {
        after := ReadArgThenExpect(1, input, plain);
        if after != ArgTagSeen { return; }
      }
      if field <= 3 {
        after := ReadArgThenExpect(2, input, plain);
        if after != ArgTagSeen { return; }
      }
      if field <= 4 {
        after := ReadArgThenExpect(3, input, plain);
        if after != ArgTagSeen { return; }
      }
      after := ReadLastArg(input, plain);
    }

    /** The body of the last case. */
    method ReadLastArg(input: CodedInputStream, ghost plain: Outcome) returns (after: Jump)
      requires input.Valid() && AfterTag(ArgTag(4), input.Rest(), Args(), input.recursionBudget) == plain
      modifies this, input
      ensures input.Valid() && Arrived(after, plain, Args(), input.lastTag, input.Rest())
      ensures after == Success ==> input.legitimateEnd && plain.legitimateEnd
      ensures after == Break ==> Parse(input.Rest(), Args(), input.recursionBudget) == plain
      ensures after == Break ==> |input.Rest()| < |old(input.Rest())| && input.legitimateEnd == old(input.legitimateEnd)
    {
      hide Parse, AfterTag, AfterUnusual, ReadTag, SkipField, Args, IsArgTag, ArgTag;
      var read := ReadArg(4, input, plain);
      if !read { return Failure; }
      ParseByTag(input.Rest(), Args(), input.recursionBudget);
      var atEnd := input.ExpectAtEnd();
      after := if atEnd then Success else Break;
    }

    /** The body of the first four cases. */
    method ReadArgThenExpect(i: nat, input: CodedInputStream, ghost plain: Outcome) returns (after: Jump)
      requires i < 4 && input.Valid()
      requires AfterTag(ArgTag(i), input.Rest(), Args(), input.recursionBudget) == plain
      modifies this, input`position, input`bufferEnd
      ensures input.Valid() && after != Success
      ensures match after
              case ArgTagSeen => AfterTag(ArgTag(i + 1), input.Rest(), Args(), input.recursionBudget) == plain
                                 && |input.Rest()| < |old(input.Rest())|
              case Failure => plain == Failed(Args())
              case Break => Parse(input.Rest(), Args(), input.recursionBudget) == plain
                            && |input.Rest()| < |old(input.Rest())|
              case Success => true
    {
      hide Parse, AfterTag, ReadTag, SkipField, Args;
      var read := ReadArg(i, input, plain);
      if !read { return Failure; }
      ParseByTag(input.Rest(), Args(), input.recursionBudget);
      var next := input.ExpectTag(ArgTag(i + 1));
      after := if next then ArgTagSeen else Break;
    }

    /** Reads the float whose tag has just been taken. */
    method ReadArg(i: nat, input: CodedInputStream, ghost plain: Outcome) returns (read: bool)
      requires i < 5 && input.Valid()
      requires AfterTag(ArgTag(i), input.Rest(), Args(), input.recursionBudget) == plain
      modifies this, input`position, input`bufferEnd
      ensures input.Valid()
      ensures !read ==> plain == Failed(Args())
      ensures read ==> |input.Rest()| < |old(input.Rest())|
      ensures read ==> Parse(input.Rest(), Args(), input.recursionBudget) == plain
    {
      hide Parse, Args, FromLittleEndian32;
      var value;
      read, value := input.ReadFloat();
      if read {
        SetArg(i, value);
      }
    }

    method SerializeWithCachedSizes(output: CodedOutputStream)
      modifies output
      ensures output.written == old(output.written) + Serialize(Args())
    {
      SerializeUnrolled(output.written, Args());
      assert Args()[0] == arg0 && Args()[1] == arg1 && Args()[2] == arg2 && Args()[3] == arg3 && Args()[4] == arg4;
      hide *;
      output.WriteUnlessZero(1, arg0);
      output.WriteUnlessZero(2, arg1);
      output.WriteUnlessZero(3, arg2);
      output.WriteUnlessZero(4, arg3);
      output.WriteUnlessZero(5, arg4);
    }

    /** Writes the same bytes from target[at] on, and returns the offset behind them. */
    method SerializeWithCachedSizesToArray(target: array<byte>, at: nat) returns (end: nat)
      requires at + 5 * NonZeroCount(Args()) <= target.Length
      modifies target
      ensures end == at + |Serialize(Args())| <= target.Length
      ensures Overwritten(old(target[..]), at, Serialize(Args()), target[..])
    {
      SerializeLength(Args(), 0);
      SerializeUnrolled([], Args());
      assert Args()[0] == arg0 && Args()[1] == arg1 && Args()[2] == arg2 && Args()[3] == arg3 && Args()[4] == arg4;
      assert [] + Serialize(Args()) == Serialize(Args());
      hide *;
      ghost var was, b0, b1 := target[..], ArgBytes(0, arg0), ArgBytes(1, arg1);
      ghost var b2, b3 := ArgBytes(2, arg2), ArgBytes(3, arg3);
      OverwrittenNot(was, at);
      end := WriteUnlessZeroToArray(0, arg0, target, at, was, at, []);
      end := WriteUnlessZeroToArray(1, arg1, target, end, was, at, [] + b0);
      end := WriteUnlessZeroToArray(2, arg2, target, end, was, at, [] + b0 + b1);
      end := WriteUnlessZeroToArray(3, arg3, target, end, was, at, [] + b0 + b1 + b2);
      end := WriteUnlessZeroToArray(4, arg4, target, end, was, at, [] + b0 + b1 + b2 + b3);
    }

    method ByteSize() returns (totalSize: nat)
      modifies this`cachedSize
      ensures totalSize == cachedSize == |Serialize(Args())| == 5 * NonZeroCount(Args())
    {
      SerializeLength(Args(), 0);
      totalSize := 0;
      if NonZero(arg0) { totalSize := totalSize + 1 + 4; }
      if NonZero(arg1) { totalSize := totalSize + 1 + 4; }
      if NonZero(arg2) { totalSize := totalSize + 1 + 4; }
      if NonZero(arg3) { totalSize := totalSize + 1 + 4; }
      if NonZero(arg4) { totalSize := totalSize + 1 + 4; }
      cachedSize := totalSize;
    }

    /** Merging a message into itself is a fatal error of the caller. */
    method MergeFrom(from: Sensor)
      requires from != this
      modifies this
      ensures Args() == Merged(old(Args()), from.Args())
    {
      if NonZero(from.arg0) { arg0 := from.arg0; }
      if NonZero(from.arg1) { arg1 := from.arg1; }
      if NonZero(from.arg2) { arg2 := from.arg2; }
      if NonZero(from.arg3) { arg3 := from.arg3; }
      if NonZero(from.arg4) { arg4 := from.arg4; }
    }

    /** Copying normalizes -0.0 like a trip over the wire does, except onto itself. */
    method CopyFrom(from: Sensor)
      modifies this
      ensures Args() == if from == this then old(Args()) else Canonical(old(from.Args()))
    {
      if from == this {
        return;
      }
      Clear();
      MergeFrom(from);
    }
  }
}
