/** The text side of the sensor pipeline: cleaning up what the serial port delivered, choosing a line and
    cutting it into five fields. Absent delimiters follow std::string: `find_first_of` yields npos,
    substr(0, npos) is everything, and npos + 1 wraps around to 0. */
module Lines {
  import opened Basics

  // ----- std::string searching and cutting -----

  function Find(s: string, c: char): (i: Option<nat>)
    ensures i.Some? ==> i.value < |s| && s[i.value] == c && c !in s[..i.value]
    ensures i.None? ==> c !in s
  {
    if s == [] then None
    else if s[0] == c then Some(0)
    else match Find(s[1..], c)
         case None => None
         case Some(i) => assert s[..i + 1] == [s[0]] + s[1..][..i]; Some(i + 1)
  }

  lemma {:induction false} FindFirst(s: string, c: char, i: nat)
    requires i < |s| && s[i] == c && c !in s[..i]
    ensures Find(s, c) == Some(i)
  {
  }

  /** s.substr(0, s.find_first_of(c)) */
  function Before(s: string, c: char): string {
    match Find(s, c)
    case None => s
    case Some(i) => s[..i]
  }

  /** s.substr(s.find_first_of(c) + 1) */
  function After(s: string, c: char): string {
    match Find(s, c)
    case None => s
    case Some(i) => s[i + 1..]
  }

  /** Cutting at the first c, or not at all when there is none. */
  lemma BeforeAndAfter(a: string, c: char, b: string)
    requires c !in a
    ensures Before(a + [c] + b, c) == a && After(a + [c] + b, c) == b
    ensures Before(a, c) == a == After(a, c)
  {
    var s := a + [c] + b;
    assert s[..|a|] == a && s[|a|] == c;
    FindFirst(s, c, |a|);
  }

  predicate Occurs(s: string, word: string) {
    word <= s || (s != [] && Occurs(s[1..], word))
  }

  ghost predicate Contains(s: string, word: string) {
    exists before, after :: s == before + word + after
  }

  lemma {:induction false} OccursIff(s: string, word: string)
    ensures Occurs(s, word) <==> Contains(s, word)
  {
    if word <= s {
      assert s == [] + word + s[|word|..];
    } else if s != [] {
      OccursIff(s[1..], word);
      if Contains(s[1..], word) {
        var before, after :| s[1..] == before + word + after;
        assert s == ([s[0]] + before) + word + after;
      }
      forall before, after | s == before + word + after ensures Contains(s[1..], word) {
        assert before != [] && s[1..] == before[1..] + word + after;
      }
    }
  }

  // ----- collapsing newlines -----

  /** s without every newline that directly follows a newline. */
  function Collapse(s: string): string {
    if |s| < 2 then s
    else if s[0] == s[1] == '\n' then Collapse(s[1..])
    else [s[0]] + Collapse(s[1..])
  }

  predicate NoAdjacentNewlines(s: string) {
    forall i | 0 <= i < |s| - 1 :: !(s[i] == s[i + 1] == '\n')
  }

  function OtherCharacters(s: string): string {
    if s == [] then [] else (if s[0] == '\n' then [] else [s[0]]) + OtherCharacters(s[1..])
  }

  lemma {:induction false} CollapseLaws(s: string)
    ensures NoAdjacentNewlines(Collapse(s))
    ensures OtherCharacters(Collapse(s)) == OtherCharacters(s)
    ensures NoAdjacentNewlines(s) <==> Collapse(s) == s
    ensures |Collapse(s)| <= |s| && (s != [] ==> Collapse(s) != [] && Collapse(s)[0] == s[0])
  {
    if |s| >= 2 {
      CollapseLaws(s[1..]);
      assert OtherCharacters(s[1..]) == (if s[1] == '\n' then [] else [s[1]]) + OtherCharacters(s[1..][1..]);
      if !(s[0] == s[1] == '\n') {
        var t := [s[0]] + Collapse(s[1..]);
        assert t[1..] == Collapse(s[1..]);
        assert NoAdjacentNewlines(t);
        assert NoAdjacentNewlines(s) ==> NoAdjacentNewlines(s[1..]);
      }
    }
  }

  /** Collapsing is idempotent: a second pass finds nothing to drop. */
  lemma CollapseTwice(s: string)
    ensures Collapse(Collapse(s)) == Collapse(s)
  {
  }

  /** Of two newlines in a row the second is dropped, wherever they are. */
  lemma {:induction false} CollapseDrops(a: string, b: string)
    ensures Collapse(a + "\n\n" + b) == Collapse(a + "\n" + b)
  {
    var s, t := a + "\n\n" + b, a + "\n" + b;
    if a == [] {
      assert s[1..] == t;
    } else {
      assert s[1..] == a[1..] + "\n\n" + b && t[1..] == a[1..] + "\n" + b;
      CollapseDrops(a[1..], b);
    }
  }

  lemma {:induction false} CollapseSnoc(s: string, c: char)
    ensures Collapse(s + [c]) ==
            if s != [] && s[|s| - 1] == c == '\n' then Collapse(s) else Collapse(s) + [c]
    ensures s != [] ==> Collapse(s) != [] && Collapse(s)[|Collapse(s)| - 1] == s[|s| - 1]
  {
    if |s| >= 2 {
      assert (s + [c])[1..] == s[1..] + [c];
      CollapseSnoc(s[1..], c);
    }
  }

  lemma CollapseOne(s: string)
    requires s != []
    ensures Collapse(s[..1]) == s[..1]
  {
  }

  /** std::unique over the characters, in place: the kept ones move to the front and n is their number. */
  method UniqueNewlines(a: array<char>) returns (n: nat)
    modifies a
    ensures n <= a.Length && a[..n] == Collapse(old(a[..]))
  {
    if a.Length == 0 {
      return 0;
    }
    ghost var was := a[..];
    hide Collapse;
    assert a[..1] == Collapse(was[..1]) by { CollapseOne(was); }
    n := 1;
    for first := 1 to a.Length
      invariant 1 <= n <= first
      invariant a[..n] == Collapse(was[..first])
      invariant a[first..] == was[first..]
    {
      CollapseSnoc(was[..first], was[first]);
      assert was[..first + 1] == was[..first] + [was[first]];
      assert a[first] == a[first..][0] == was[first];
      ghost var kept, tail := a[..n], a[first + 1..];
      assert tail == a[first..][1..] == was[first..][1..] == was[first + 1..];
      if !(a[n - 1] == '\n' && a[first] == '\n') {
        a[n] := a[first];
        assert a[..n + 1] == kept + [was[first]];
        n := n + 1;
      }
      assert a[first + 1..] == tail;
    }
    assert was[..a.Length] == was;
  }

  // ----- choosing a line -----

  /** The line an iteration parses, if what was read holds one: the second line when the text mentions
      "set", the first otherwise, and none until a line behind the first newline is complete. */
  function ChosenLine(text: string): (line: Option<string>)
    ensures line.Some? ==> '\n' !in line.value
  {
    var all := Collapse(text);
    var behind := After(all, '\n');
    if '\n' !in behind then None
    else if Occurs(all, "set") then Some(Before(behind, '\n'))
    else Some(Before(all, '\n'))
  }

  /** A text that begins with two lines. */
  predicate BeginsWith(text: string, first: string, second: string, rest: string) {
    '\n' !in first && '\n' !in second && text == first + "\n" + second + "\n" + rest
  }

  /** Of the first two lines the second is taken if "set" stands anywhere in the text, and the first if not. */
  lemma ChosenLineIs(text: string, first: string, second: string, rest: string)
    requires BeginsWith(Collapse(text), first, second, rest)
    ensures ChosenLine(text) == Some(if Contains(Collapse(text), "set") then second else first)
  {
    hide Occurs, Contains, Before, After, Collapse;
    var all, behind := Collapse(text), second + "\n" + rest;
    OccursIff(all, "set");
    assert all == first + ['\n'] + behind && behind == second + ['\n'] + rest;
    BeforeAndAfter(first, '\n', behind);
    BeforeAndAfter(second, '\n', rest);
    assert behind[|second|] == '\n';
  }

  function Newlines(s: string): nat {
    multiset(s)['\n']
  }

  lemma CutNewlines(s: string)
    ensures '\n' !in s ==> Newlines(s) == 0
    ensures '\n' in s ==> '\n' !in Before(s, '\n') && s == Before(s, '\n') + "\n" + After(s, '\n')
    ensures '\n' in s ==> Newlines(s) == 1 + Newlines(After(s, '\n'))
  {
    if '\n' in s {
      var a, b := Before(s, '\n'), After(s, '\n');
      assert s == a + "\n" + b;
      assert multiset(a)['\n'] == 0;
    }
  }

  /** There is no line to take if and only if there are fewer than two newlines. */
  lemma NoLineIff(text: string)
    ensures ChosenLine(text).None? <==> Newlines(Collapse(text)) < 2
    ensures ChosenLine(text).Some? <==> exists first, second, rest :: BeginsWith(Collapse(text), first, second, rest)
  {
    hide Collapse, Occurs, Newlines, Before, After;
    var all := Collapse(text);
    var behind := After(all, '\n');
    CutNewlines(all);
    CutNewlines(behind);
    if '\n' in all && '\n' in behind {
      assert BeginsWith(all, Before(all, '\n'), Before(behind, '\n'), After(behind, '\n'));
    } else if '\n' !in all {
      BeforeAndAfter(all, '\n', []);
    }
    forall first, second, rest | BeginsWith(all, first, second, rest) ensures ChosenLine(text).Some? {
      ChosenLineIs(text, first, second, rest);
    }
  }

  // ----- fields -----

  /** The comma-separated pieces of s, at least one. */
  function Pieces(s: string): (ps: seq<string>)
    ensures |ps| > 0
  {
    match Find(s, ',')
    case None => [s]
    case Some(i) => [s[..i]] + Pieces(s[i + 1..])
  }

  function Join(ps: seq<string>): string
    requires |ps| > 0
  {
    if |ps| == 1 then ps[0] else ps[0] + [','] + Join(ps[1..])
  }

  /** Field i of a line: its i-th piece, the last piece again when there are not that many. */
  function Field(line: string, i: nat): string {
    var ps := Pieces(line);
    ps[if i < |ps| then i else |ps| - 1]
  }

  lemma {:induction false} PiecesSplit(s: string)
    ensures Join(Pieces(s)) == s && forall p <- Pieces(s) :: ',' !in p
  {
    match Find(s, ',') {
      case None =>
      case Some(i) =>
        PiecesSplit(s[i + 1..]);
        assert ([s[..i]] + Pieces(s[i + 1..]))[1..] == Pieces(s[i + 1..]);
        assert s == s[..i] + [','] + s[i + 1..];
    }
  }

  /** Nothing else is a splitting at the commas. */
  lemma {:induction false} PiecesUnique(s: string, ps: seq<string>)
    requires |ps| > 0 && Join(ps) == s && forall p <- ps :: ',' !in p
    ensures ps == Pieces(s)
  {
    if |ps| > 1 {
      assert s[|ps[0]|] == ',' && s[..|ps[0]|] == ps[0] && s[|ps[0]| + 1..] == Join(ps[1..]);
      FindFirst(s, ',', |ps[0]|);
      assert [s[..|ps[0]|]] + ps[1..] == ps;
      PiecesUnique(s[|ps[0]| + 1..], ps[1..]);
    } else {
      assert ps == [s] && s in ps;
    }
  }

  /** The fields of pieces joined by commas are these pieces. */
  lemma FieldOfJoin(ps: seq<string>, i: nat)
    requires |ps| > 0 && forall p <- ps :: ',' !in p
    ensures Field(Join(ps), i) == if i < |ps| then ps[i] else ps[|ps| - 1]
  {
    PiecesUnique(Join(ps), ps);
  }

  /** What is left of a line after cutting off i fields the way both programs do it. */
  function Rest(line: string, i: nat): string {
    if i == 0 then line else After(Rest(line, i - 1), ',')
  }

  /** Cutting off one field takes the first piece, unless it is the only one. */
  lemma {:induction false} AfterPieces(s: string)
    ensures Pieces(After(s, ',')) == if |Pieces(s)| > 1 then Pieces(s)[1..] else Pieces(s)
    ensures forall c :: c !in s ==> c !in After(s, ',')
  {
    match Find(s, ',') {
      case None =>
      case Some(i) => assert Pieces(s)[1..] == Pieces(s[i + 1..]);
    }
  }

  lemma {:induction false} RestPieces(line: string, i: nat)
    ensures Pieces(Rest(line, i)) == Pieces(line)[if i < |Pieces(line)| then i else |Pieces(line)| - 1..]
    ensures forall c :: c !in line ==> c !in Rest(line, i)
  {
    hide Pieces, Find, After;
    if i > 0 {
      RestPieces(line, i - 1);
      AfterPieces(Rest(line, i - 1));
      var ps := Pieces(line);
      var k := if i - 1 < |ps| then i - 1 else |ps| - 1;
      assert |ps[k..]| > 1 ==> ps[k..][1..] == ps[k + 1..];
    }
  }

  /** Cutting field by field finds exactly the pieces. */
  lemma RestIsField(line: string, i: nat)
    ensures Before(Rest(line, i), ',') == Field(line, i)
  {
    RestPieces(line, i);
    var s := Rest(line, i);
    assert Pieces(s)[0] == Before(s, ',');
  }
}
