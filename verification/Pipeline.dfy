/** The endless loop that turns serial text into frames: clean the text, choose a line, set the sensor
    field by field, serialize only when all five fields parsed, and send ByteSize() bytes of the buffer
    either way. std::stof is a parameter: a partial function from text to float patterns. */
module Pipeline {
  import opened Basics
  import opened SensorMessage
  import opened Lines

  type Stof = string -> Option<Bits>

  const BUFSIZ := 512
  const FRAME := 25
  /** The pattern of -1.0f. */
  const MINUS_ONE: Bits := 0xBF80_0000

  /** f == 0 ? -1 : f */
  function ReplaceZero(b: Bits): (r: Bits)
    ensures NonZero(r) && (NonZero(b) ==> r == b)
  {
    if NonZero(b) then b else MINUS_ONE
  }

  // ----- what a line says -----

  /** The values of fields i and up, as far as they can be read before one throws. */
  function ReadingsFrom(line: string, i: nat, stof: Stof): (rs: seq<Bits>)
    requires i <= 5
    ensures |rs| <= 5 - i
    decreases 5 - i
  {
    if i == 5 then []
    else match stof(Field(line, i))
         case None => []
         case Some(b) => [b] + ReadingsFrom(line, i + 1, stof)
  }

  function Readings(line: string, stof: Stof): seq<Bits> {
    ReadingsFrom(line, 0, stof)
  }

  function Replaced(rs: seq<Bits>): (zs: seq<Bits>)
    ensures |zs| == |rs| && forall i | 0 <= i < |rs| :: zs[i] == ReplaceZero(rs[i])
  {
    seq(|rs|, i requires 0 <= i < |rs| => ReplaceZero(rs[i]))
  }

  /** m with the arguments from i on overwritten as far as rs reaches. */
  function Overlay(m: Args, i: nat, rs: seq<Bits>): Args
    requires i + |rs| <= 5
  {
    m[..i] + rs + m[i + |rs|..]
  }

  lemma OverlayAt(m: Args, rs: seq<Bits>)
    requires |rs| <= 5
    ensures forall i | 0 <= i < 5 :: Overlay(m, 0, rs)[i] == if i < |rs| then rs[i] else m[i]
    ensures |rs| == 5 ==> Overlay(m, 0, rs) == rs
  {
  }

  // ----- one iteration on values -----

  lemma {:induction false} NonZeroCountBound(m: seq<Bits>)
    ensures NonZeroCount(m) <= |m|
    ensures NonZeroCount(m) == |m| <==> forall b <- m :: NonZero(b)
  {
    if m != [] {
      NonZeroCountBound(m[1..]);
      assert m == [m[0]] + m[1..];
    }
  }

  lemma SerializeFull(m: Args)
    ensures |Serialize(m)| % 5 == 0 && |Serialize(m)| <= FRAME
    ensures |Serialize(m)| == FRAME <==> forall b <- m :: NonZero(b)
  {
    hide Serialize, SerializeFrom, NonZeroCount;
    SerializeLength(m, 0);
    NonZeroCountBound(m);
  }

  datatype State = State(args: Args, buffer: seq<byte>, sent: seq<seq<byte>>)

  /** The bytes of the serialization at the front of the buffer, the rest of it as it was. */
  function Stamped(buffer: seq<byte>, bytes: seq<byte>): seq<byte>
    requires |bytes| <= |buffer|
  {
    bytes + buffer[|bytes|..]
  }

  /** What one parsed line does, given the values that could be read from it. */
  function Deliver(st: State, rs: seq<Bits>): (next: State)
    requires |st.buffer| == BUFSIZ && |rs| <= 5
    ensures |next.buffer| == BUFSIZ
  {
    var args := Overlay(st.args, 0, rs);
    SerializeFull(args);
    var buffer := if |rs| == 5 then Stamped(st.buffer, Serialize(args)) else st.buffer;
    State(args, buffer, st.sent + [buffer[..|Serialize(args)|]])
  }

  function Step(st: State, text: string, stof: Stof): (next: State)
    requires |st.buffer| == BUFSIZ
    ensures |next.buffer| == BUFSIZ
  {
    match ChosenLine(text)
    case None => st
    case Some(line) => Deliver(st, Replaced(Readings(line, stof)))
  }

  function Run(st: State, texts: seq<string>, stof: Stof): (next: State)
    requires |st.buffer| == BUFSIZ
    ensures |next.buffer| == BUFSIZ
  {
    if texts == [] then st else Step(Run(st, texts[..|texts| - 1], stof), texts[|texts| - 1], stof)
  }

  // ----- what a run has read -----

  /** The complete reading a text holds, if its chosen line parses to the end. */
  function Complete(text: string, stof: Stof): (reading: Option<Args>)
    ensures reading.Some? ==> forall b <- reading.value :: NonZero(b)
  {
    match ChosenLine(text)
    case None => None
    case Some(line) =>
      var rs := Replaced(Readings(line, stof));
      if |rs| == 5 then Some(rs) else None
  }

  function Latest(texts: seq<string>, stof: Stof): (reading: Option<Args>)
    ensures reading.Some? ==> forall b <- reading.value :: NonZero(b)
  {
    if texts == [] then None
    else
      var now := Complete(texts[|texts| - 1], stof);
      if now.Some? then now else Latest(texts[..|texts| - 1], stof)
  }

  /** For every send of a run, the latest complete reading at that moment. */
  function Reported(texts: seq<string>, stof: Stof): seq<Option<Args>> {
    if texts == [] then []
    else Reported(texts[..|texts| - 1], stof)
         + if ChosenLine(texts[|texts| - 1]).Some? then [Latest(texts, stof)] else []
  }

  ghost predicate FrameInvariant(st: State, latest: Option<Args>, reported: seq<Option<Args>>) {
    && |st.buffer| == BUFSIZ
    && (latest.None? ==> st.args[4] == 0)
    && (latest.Some? ==>
          && (forall b <- st.args :: NonZero(b))
          && |Serialize(latest.value)| == FRAME
          && st.buffer[..FRAME] == Serialize(latest.value))
    && |st.sent| == |reported|
    && forall k | 0 <= k < |reported| :: SendMatches(st.sent[k], reported[k])
  }

  /** Until a line has parsed completely a send is short; from then on it is exactly one frame. */
  ghost predicate SendMatches(send: seq<byte>, reported: Option<Args>) {
    match reported
    case None => |send| < FRAME && |send| % 5 == 0
    case Some(reading) => |send| == FRAME && send == Serialize(reading)
  }

  lemma DeliverShape(st: State, rs: seq<Bits>)
    requires |st.buffer| == BUFSIZ && |rs| <= 5 && forall i | 0 <= i < |rs| :: NonZero(rs[i])
    ensures var next := Deliver(st, rs);
            && |Serialize(next.args)| <= FRAME
            && next.sent == st.sent + [next.buffer[..|Serialize(next.args)|]]
            && if |rs| == 5 then next.args == rs && next.buffer == Stamped(st.buffer, Serialize(rs))
               else
                 && next.buffer == st.buffer && next.args[4] == st.args[4]
                 && forall i | 0 <= i < 5 :: next.args[i] == st.args[i] || NonZero(next.args[i])
  {
    OverlayAt(st.args, rs);
    SerializeFull(Overlay(st.args, 0, rs));
    hide Overlay, Serialize, Stamped;
  }

  /** The send a parsed line ends with. */
  lemma DeliverSends(st: State, rs: seq<Bits>, latest: Option<Args>, reported: seq<Option<Args>>)
    requires FrameInvariant(st, latest, reported)
    requires |rs| <= 5 && forall i | 0 <= i < |rs| :: NonZero(rs[i])
    ensures var next, latest' := Deliver(st, rs), if |rs| == 5 then Some(rs) else latest;
            && (latest'.Some? ==> forall b <- next.args :: NonZero(b))
            && |Serialize(next.args)| <= FRAME
            && SendMatches(next.buffer[..|Serialize(next.args)|], latest')
  {
    DeliverShape(st, rs);
    SerializeFull(Deliver(st, rs).args);
    hide Deliver, Serialize;
    var next, latest' := Deliver(st, rs), if |rs| == 5 then Some(rs) else latest;
    if latest'.None? {
      assert next.args[4] == 0 && next.args[4] in next.args;
    } else if |rs| < 5 {
      forall i | 0 <= i < 5 ensures NonZero(next.args[i]) {
        assert st.args[i] in st.args;
      }
    }
  }

  lemma DeliverKeepsFrames(st: State, rs: seq<Bits>, latest: Option<Args>, reported: seq<Option<Args>>)
    requires FrameInvariant(st, latest, reported)
    requires |rs| <= 5 && forall i | 0 <= i < |rs| :: NonZero(rs[i])
    ensures var latest' := if |rs| == 5 then Some(rs) else latest;
            FrameInvariant(Deliver(st, rs), latest', reported + [latest'])
  {
    DeliverShape(st, rs);
    DeliverSends(st, rs, latest, reported);
    SerializeFull(Deliver(st, rs).args);
    hide Deliver, Serialize, NonZero, SendMatches;
  }

  lemma StepKeepsFrames(st: State, text: string, stof: Stof, latest: Option<Args>, reported: seq<Option<Args>>)
    requires FrameInvariant(st, latest, reported)
    ensures var now := Complete(text, stof);
            var latest' := if now.Some? then now else latest;
            FrameInvariant(Step(st, text, stof), latest',
                           reported + if ChosenLine(text).Some? then [latest'] else [])
  {
    hide FrameInvariant, Deliver, ReadingsFrom, Replaced, ChosenLine, NonZero;
    assert reported + [] == reported;
    if ChosenLine(text).Some? {
      DeliverKeepsFrames(st, Replaced(Readings(ChosenLine(text).value, stof)), latest, reported);
    }
  }

  /** The whole-run frame invariant: whatever was read and wherever parses failed, every send is the
      serialization of the sensor as of the latest complete parse, exactly 25 bytes, and before the first
      complete parse every send is shorter than that. */
  lemma {:induction false} RunKeepsFrames(st: State, texts: seq<string>, stof: Stof)
    requires st.args == CLEARED && st.sent == [] && |st.buffer| == BUFSIZ
    ensures FrameInvariant(Run(st, texts, stof), Latest(texts, stof), Reported(texts, stof))
    decreases |texts|
  {
    if texts != [] {
      var before := texts[..|texts| - 1];
      RunKeepsFrames(st, before, stof);
      StepKeepsFrames(Run(st, before, stof), texts[|texts| - 1], stof, Latest(before, stof), Reported(before, stof));
    }
  }

  // ----- the receiver -----

  function Concat(parts: seq<seq<byte>>): seq<byte> {
    if parts == [] then [] else parts[0] + Concat(parts[1..])
  }

  /** Cuts a stream every 25 bytes and parses each frame into a fresh message. */
  function Receive(stream: seq<byte>, depth: nat): seq<Outcome> {
    if |stream| < FRAME then []
    else [Parse(stream[..FRAME], CLEARED, depth)] + Receive(stream[FRAME..], depth)
  }

  lemma CanonicalFull(m: Args)
    requires |Serialize(m)| == FRAME
    ensures Canonical(m) == m
  {
  }

  lemma {:induction false} ReceiveFrames(frames: seq<seq<byte>>, reported: seq<Option<Args>>, depth: nat)
    requires |frames| == |reported|
    requires forall k | 0 <= k < |frames| :: reported[k].Some? && SendMatches(frames[k], reported[k])
    ensures |Receive(Concat(frames), depth)| == |reported|
    ensures forall k | 0 <= k < |reported| ::
              Receive(Concat(frames), depth)[k] == Outcome(true, reported[k].value, 0, true, [])
  {
    if frames != [] {
      hide Parse, Serialize, Canonical;
      var reading, stream := reported[0].value, Concat(frames);
      assert stream[..FRAME] == frames[0] && stream[FRAME..] == Concat(frames[1..]);
      RoundTrip(reading, depth);
      SerializeFull(reading);
      CanonicalFull(reading);
      ReceiveFrames(frames[1..], reported[1..], depth);
    }
  }

  lemma {:induction false} ReportedStays(texts: seq<string>, stof: Stof)
    ensures forall i, j | 0 <= i <= j < |Reported(texts, stof)| && Reported(texts, stof)[i].Some? ::
              Reported(texts, stof)[j].Some?
    ensures forall k | 0 <= k < |Reported(texts, stof)| && Reported(texts, stof)[k].Some? :: Latest(texts, stof).Some?
  {
    if texts != [] {
      ReportedStays(texts[..|texts| - 1], stof);
    }
  }

  /** A receiver that starts at the first complete parse and cuts the stream every 25 bytes reads exactly
      the completely parsed readings, in order, one for every send. */
  lemma StreamReadsReadings(st: State, texts: seq<string>, stof: Stof, from: nat, depth: nat)
    requires st.args == CLEARED && st.sent == [] && |st.buffer| == BUFSIZ
    requires from < |Reported(texts, stof)| && Reported(texts, stof)[from].Some?
    ensures |Run(st, texts, stof).sent| == |Reported(texts, stof)|
    ensures var received := Receive(Concat(Run(st, texts, stof).sent[from..]), depth);
            var reported := Reported(texts, stof)[from..];
            && |received| == |reported|
            && forall k | 0 <= k < |reported| ::
                 reported[k].Some? && received[k] == Outcome(true, reported[k].value, 0, true, [])
  {
    RunKeepsFrames(st, texts, stof);
    ReportedStays(texts, stof);
    var sent, reported := Run(st, texts, stof).sent[from..], Reported(texts, stof)[from..];
    forall k | 0 <= k < |sent|
      ensures reported[k].Some? && SendMatches(sent[k], reported[k])
    {
      assert reported[k] == Reported(texts, stof)[from + k] && sent[k] == Run(st, texts, stof).sent[from + k];
    }
    ReceiveFrames(sent, reported, depth);
  }
}
