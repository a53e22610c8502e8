/** From text to frame: what one round of the loops sends, told by the characters of the text and the bytes
    of the frame. */
module SensorText {
  import opened Basics
  import opened WireGrammar
  import opened SensorMessage
  import opened SensorGrammar
  import opened Lines
  import opened Pipeline
  import opened SensorLoop

  /** A zero reading, of either sign, becomes -1; every other number is kept. */
  lemma ZeroBecomesMinusOne(b: Bits)
    requires Exponent(b) < 255
    ensures Exponent(ReplaceZero(b)) < 255
    ensures FloatValue(ReplaceZero(b)) == if FloatValue(b) == 0.0 then -1.0 else FloatValue(b)
  {
    hide Exponent, FloatValue, NonZero;
    NonZeroIff(b);
    OneIs();
  }

  /** The line a text with these first two lines is parsed as. */
  ghost function LineOf(text: string, first: string, second: string): string {
    if Contains(Collapse(text), "set") then second else first
  }

  /** The first k pieces convert to vs, and the next one, if there are fewer than five, throws. */
  predicate Converts(pieces: seq<string>, stof: Stof, vs: seq<Bits>) {
    && |pieces| == 5 && |vs| <= 5
    && (forall p <- pieces :: ',' !in p)
    && (forall i | 0 <= i < |vs| :: stof(pieces[i]) == Some(vs[i]))
    && (|vs| < 5 ==> stof(pieces[|vs|]) == None)
  }

  lemma {:induction false} ReadingsFromAre(pieces: seq<string>, stof: Stof, vs: seq<Bits>, i: nat)
    requires Converts(pieces, stof, vs) && i <= |vs|
    ensures ReadingsFrom(Join(pieces), i, stof) == vs[i..]
    decreases 5 - i
  {
    if i < 5 {
      FieldOfJoin(pieces, i);
      if i < |vs| {
        ReadingsFromAre(pieces, stof, vs, i + 1);
        assert vs[i..] == [vs[i]] + vs[i + 1..];
      }
    }
    hide Field, Join;
  }

  /** A text with fewer than two lines changes nothing and sends nothing. */
  lemma NoLineNothingSent(st: State, text: string, stof: Stof)
    requires |st.buffer| == BUFSIZ && Newlines(Collapse(text)) < 2
    ensures Step(st, text, stof) == st
  {
    NoLineIff(text);
    hide ChosenLine, Collapse, Newlines, Deliver;
  }

  /** One frame of five values: its tags and its words. */
  predicate FrameOfFive(frame: seq<byte>, vs: seq<Bits>)
    requires |vs| == 5
  {
    && |frame| == 25
    && (forall i | 0 <= i < 5 :: frame[5 * i] == [0x0D, 0x15, 0x1D, 0x25, 0x2D][i])
    && (forall i | 0 <= i < 5 :: BytesValue(frame[5 * i + 1..5 * i + 5]) == vs[i])
  }

  /** A line of five numbers is sent as the frame of these numbers, with -1 for 0. */
  lemma FiveNumbersAreSent(st: State, text: string, first: string, second: string, rest: string,
                           pieces: seq<string>, stof: Stof, vs: seq<Bits>)
    requires |st.buffer| == BUFSIZ && BeginsWith(Collapse(text), first, second, rest)
    requires Converts(pieces, stof, vs) && |vs| == 5 && LineOf(text, first, second) == Join(pieces)
    ensures var next := Step(st, text, stof);
            && |next.sent| == |st.sent| + 1 && next.sent[..|st.sent|] == st.sent
            && FrameOfFive(next.sent[|st.sent|], Replaced(vs))
            && next.args == Replaced(vs)
  {
    hide Collapse, Contains, Join, Converts, ReadingsFrom, Serialize, FrameOfFive, BeginsWith, Overlay;
    ChosenLineIs(text, first, second, rest);
    ReadingsFromAre(pieces, stof, vs, 0);
    assert vs[0..] == vs;
    var reading: Args := Replaced(vs);
    OverlayAt(st.args, reading);
    FrameIs(reading);
    assert Stamped(st.buffer, Serialize(reading))[..25] == Serialize(reading);
  }

  lemma FrameIs(m: Args)
    requires forall b <- m :: NonZero(b)
    ensures |Serialize(m)| == 25 && FrameOfFive(Serialize(m), m)
  {
    FullFrame(m);
    hide Serialize, BytesValue;
  }

  /** When the conversion of a field throws, the fields before it are set, the buffer stays, and as much of
      it is sent as the arguments would take now. */
  lemma ThrowKeepsBuffer(st: State, text: string, first: string, second: string, rest: string,
                         pieces: seq<string>, stof: Stof, vs: seq<Bits>)
    requires |st.buffer| == BUFSIZ && BeginsWith(Collapse(text), first, second, rest)
    requires Converts(pieces, stof, vs) && |vs| < 5 && LineOf(text, first, second) == Join(pieces)
    ensures var next := Step(st, text, stof);
            && next.buffer == st.buffer
            && (forall i | 0 <= i < 5 :: next.args[i] == if i < |vs| then ReplaceZero(vs[i]) else st.args[i])
            && NonZeroCount(next.args) <= 5
            && next.sent == st.sent + [st.buffer[..5 * NonZeroCount(next.args)]]
  {
    hide Collapse, Contains, Join, Converts, ReadingsFrom, Serialize, BeginsWith, Overlay, NonZeroCount;
    ChosenLineIs(text, first, second, rest);
    ReadingsFromAre(pieces, stof, vs, 0);
    assert vs[0..] == vs;
    OverlayAt(st.args, Replaced(vs));
    SerializeLength(Overlay(st.args, 0, Replaced(vs)), 0);
    NonZeroCountBound(Overlay(st.args, 0, Replaced(vs)));
  }

  /** The text between the first newline and the next, and all of it where there is none. */
  lemma SecondLine(first: string, second: string, rest: string)
    requires '\n' !in first && '\n' !in second
    ensures Before(After(first + "\n" + second + "\n" + rest, '\n'), '\n') == second
    ensures Before(After(first + "\n" + second, '\n'), '\n') == second
    ensures Before(After(first, '\n'), '\n') == first
  {
    hide Before, After;
    BeforeAndAfter(first, '\n', second + "\n" + rest);
    BeforeAndAfter(first, '\n', second);
    BeforeAndAfter(second, '\n', rest);
    assert first + "\n" + second + "\n" + rest == first + "\n" + (second + "\n" + rest);
  }

  /** The server takes the second line of what the port returned, up to its end if it has no newline. */
  lemma ServerLineIs(taken: string, more: string, realSize: int, first: string, second: string, rest: string)
    requires realSize == |taken| || (more == [] && (realSize < 0 || realSize > |taken|))
    requires '\n' !in first && '\n' !in second
    ensures taken == first + "\n" + second + "\n" + rest ==> ServerLine(taken + more, realSize) == second
    ensures taken == first + "\n" + second ==> ServerLine(taken + more, realSize) == second
    ensures taken == first ==> ServerLine(taken + more, realSize) == first
  {
    hide Before, After;
    assert (taken + more)[..|taken|] == taken && (more == [] ==> taken + more == taken);
    assert ServerLine(taken + more, realSize) == Before(After(taken, '\n'), '\n');
    SecondLine(first, second, rest);
  }
}
