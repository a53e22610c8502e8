/** What holds over whole runs of orientation samples: which sample the references come from, where a run
    starts from zero, and exactly when a constant heading offset can be seen. */
module ArmRuns {
  import opened Basics
  import opened Rotations
  import opened ArmPose

  predicate AllUnit(samples: seq<Quat>) {
    forall q <- samples :: q.Unit()
  }

  // ----- the references -----

  /** Up, down or in the middle, by how far up a pose points. */
  function ZoneOf(q: Quat): Zone {
    if -Drop(q) > 0.5 then Up else if -Drop(q) < -0.5 then Down else Mid
  }

  /** The zone after some samples: that of the last but one of them. */
  function ZoneAfter(samples: seq<Quat>): Zone {
    if samples == [] then Down else if |samples| == 1 then Mid else ZoneOf(samples[|samples| - 2])
  }

  /** The last sample takes the references. */
  predicate Captures(samples: seq<Quat>)
    requires samples != []
  {
    ZoneAfter(samples[..|samples| - 1]) == Down && ZoneAfter(samples) == Mid
  }

  lemma {:induction false} ZoneIs(m: Maths, samples: seq<Quat>)
    requires m.pi != 0.0
    ensures Run(m, samples).zone == ZoneAfter(samples)
    ensures samples != [] ==> ZoneAt(Run(m, samples).pos) == ZoneOf(samples[|samples| - 1])
    ensures samples == [] ==> ZoneAt(Run(m, samples).pos) == Mid
    decreases |samples|
  {
    if samples != [] {
      ZoneIs(m, samples[..|samples| - 1]);
    }
    hide Drop, HeadingAngle, Roll, Heading, Turn.Undo;
  }

  lemma CapturesIs(m: Maths, samples: seq<Quat>)
    requires m.pi != 0.0 && samples != []
    ensures Calibrates(Run(m, samples[..|samples| - 1])) <==> Captures(samples)
  {
    ZoneIs(m, samples[..|samples| - 1]);
    hide Run, ZoneOf, ZoneAt;
  }

  /** The sample at the latest step that took the references. */
  function LatestCapture(samples: seq<Quat>): Option<Quat> {
    if samples == [] then None
    else if Captures(samples) then Some(samples[|samples| - 1])
    else LatestCapture(samples[..|samples| - 1])
  }

  /** The first sample always takes the references, and at any time they are those of the sample that
      took them last: no other step touches them. */
  lemma {:induction false} ReferenceIsLatestCapture(m: Maths, samples: seq<Quat>)
    requires m.pi != 0.0 && samples != []
    ensures match LatestCapture(samples)
            case None => false
            case Some(q) =>
              && Run(m, samples).reference == m.Direction(HeadingAngle(m, q))
              && Run(m, samples).referenceRoll == Roll(m, q)
    decreases |samples|
  {
    var before := samples[..|samples| - 1];
    CapturesIs(m, samples);
    if before != [] {
      ReferenceIsLatestCapture(m, before);
    }
    hide Run, Roll, HeadingAngle, Position, Calibrates, ZoneOf;
  }

  /** In the direction it was taken in, a heading is straight ahead. */
  lemma PolarUndo(m: Maths, p: Turn)
    requires m.Lawful() && p != Turn(0.0, 0.0)
    ensures m.hypot(p.sin, p.cos) > 0.0
    ensures m.Direction(m.atan2(p.sin, p.cos)).Undo(p) == Turn(m.hypot(p.sin, p.cos), 0.0)
  {
    var a, h := m.atan2(p.sin, p.cos), m.hypot(p.sin, p.cos);
    assert p.cos != 0.0 || p.sin != 0.0;
    assert m.Polar(p.sin, p.cos) && m.Pythagoras(a);
    hide *;
    var c, s := m.cos(a), m.sin(a);
    Scale(p.cos, h * c, c);
    Scale(p.cos, h * c, s);
    Scale(p.sin, h * s, s);
    Scale(p.sin, h * s, c);
    Scale(c * c + s * s, 1.0, h);
    UndoIs(m.Direction(a), p, c, s, p.cos, p.sin, h, 0.0) by {
      DirectionIs(m, a);
    }
  }

  lemma DirectionIs(m: Maths, a: real)
    ensures m.Direction(a).cos == m.cos(a) && m.Direction(a).sin == m.sin(a)
  {
  }

  /** A capturing step starts from zero: the speed is less than 1 either way, and theta is 0 unless the arm
      points straight up or down, when it is whatever angle atan2 gives the origin. */
  lemma CaptureStartsAtZero(m: Maths, arm: Arm, q: Quat)
    requires m.Lawful() && Calibrates(arm)
    ensures -1.0 < Step(m, arm, q).speed < 1.0
    ensures Step(m, arm, q).theta == 0.0 <==> !Vertical(q) || m.atan2(0.0, 0.0) == 0.0
  {
    if !Vertical(q) {
      PolarUndo(m, Heading(q));
      assert m.Ahead(m.hypot(Heading(q).sin, Heading(q).cos));
    } else {
      assert m.Direction(HeadingAngle(m, q)).Undo(Turn(0.0, 0.0)) == Turn(0.0, 0.0);
      ScaledSame(m.atan2(0.0, 0.0), 0.0, m.pi);
    }
    hide Heading, Maths.Direction, Turn.Undo, Roll, Drop;
  }

  lemma ScaledSame(a: real, b: real, pi: real)
    requires pi > 0.0
    ensures a * 180.0 / pi == b * 180.0 / pi <==> a == b
  {
  }

  // ----- heading offsets -----

  function Turned(h: Quat, samples: seq<Quat>): (turned: seq<Quat>)
    ensures |turned| == |samples| && forall i | 0 <= i < |samples| :: turned[i] == h.Times(samples[i])
  {
    seq(|samples|, i requires 0 <= i < |samples| => h.Times(samples[i]))
  }

  lemma SameSquare(a: real, b: real)
    requires a > 0.0 && b > 0.0 && a * a == b * b
    ensures a == b
  {
  }

  lemma PolarSquare(h: real, c: real, s: real, x: real, y: real)
    requires h * c == x && h * s == y && c * c + s * s == 1.0
    ensures h * h == x * x + y * y
  {
  }

  lemma TurnSquare(t: Turn, p: Turn, r: Turn)
    requires t.cos * t.cos + t.sin * t.sin == 1.0
    requires r.cos == t.cos * p.cos - t.sin * p.sin && r.sin == t.sin * p.cos + t.cos * p.sin
    ensures r.cos * r.cos + r.sin * r.sin == p.cos * p.cos + p.sin * p.sin
  {
  }

  lemma NonZeroSquare(x: real, y: real)
    ensures x * x + y * y > 0.0 <==> x != 0.0 || y != 0.0
  {
  }

  lemma LengthsAgree(t: Turn, p: Turn, r: Turn, a: real, b: real, c: real, d: real, h: real, k: real)
    requires t.cos * t.cos + t.sin * t.sin == 1.0 && a * a + b * b == 1.0 && c * c + d * d == 1.0
    requires h > 0.0 && h * a == p.cos && h * b == p.sin && k > 0.0 && k * c == r.cos && k * d == r.sin
    requires r.cos == t.cos * p.cos - t.sin * p.sin && r.sin == t.sin * p.cos + t.cos * p.sin
    ensures h == k
  {
    hide *;
    assert h * h == k * k by {
      TurnSquare(t, p, r);
      PolarSquare(h, a, b, p.cos, p.sin);
      PolarSquare(k, c, d, r.cos, r.sin);
    }
    SameSquare(h, k);
  }

  /** A vector is its length in a direction. */
  predicate PolarForm(h: real, u: Turn, p: Turn) {
    h > 0.0 && h * u.cos == p.cos && h * u.sin == p.sin && u.cos * u.cos + u.sin * u.sin == 1.0
  }

  /** If two vectors have polar forms and the second is the first turned, so are their directions. */
  lemma PolarTurns(t: Turn, u: Turn, v: Turn, p: Turn, h: real, k: real)
    requires t.Valid() && PolarForm(h, u, p) && PolarForm(k, v, t.Apply(p))
    ensures v == t.Apply(u)
  {
    hide Turn.Apply;
    var r := t.Apply(p);
    ApplyIs(t, p);
    LengthsAgree(t, p, r, u.cos, u.sin, v.cos, v.sin, h, k);
    SameDirection(t, u, v, p, r, h);
  }

  /** A turn takes no vector to the origin. */
  lemma TurnNonZero(t: Turn, p: Turn)
    requires t.Valid() && p != Turn(0.0, 0.0)
    ensures t.Apply(p) != Turn(0.0, 0.0)
  {
    TurnSquare(t, p, t.Apply(p));
    NonZeroSquare(p.cos, p.sin);
  }

  /** The direction of a turned heading is the turned direction, unless there is no direction at all. */
  lemma DirectionTurns(m: Maths, t: Turn, p: Turn)
    requires m.Lawful() && t.Valid() && p != Turn(0.0, 0.0)
    ensures var r := t.Apply(p);
            m.Direction(m.atan2(r.sin, r.cos)) == t.Apply(m.Direction(m.atan2(p.sin, p.cos)))
  {
    hide PolarForm, Turn.Apply, Maths.Lawful, Maths.Direction;
    var r := t.Apply(p);
    TurnNonZero(t, p);
    DirectionPolar(m, p);
    DirectionPolar(m, r);
    hide Turn.Valid;
    PolarTurns(t, m.Direction(m.atan2(p.sin, p.cos)), m.Direction(m.atan2(r.sin, r.cos)), p,
               m.hypot(p.sin, p.cos), m.hypot(r.sin, r.cos));
  }

  lemma DirectionPolar(m: Maths, p: Turn)
    requires m.Lawful() && p != Turn(0.0, 0.0)
    ensures PolarForm(m.hypot(p.sin, p.cos), m.Direction(m.atan2(p.sin, p.cos)), p)
  {
    assert m.Polar(p.sin, p.cos) && m.Pythagoras(m.atan2(p.sin, p.cos));
  }

  lemma SameDirection(t: Turn, u: Turn, v: Turn, p: Turn, r: Turn, h: real)
    requires h > 0.0 && h * u.cos == p.cos && h * u.sin == p.sin && h * v.cos == r.cos && h * v.sin == r.sin
    requires r.cos == t.cos * p.cos - t.sin * p.sin && r.sin == t.sin * p.cos + t.cos * p.sin
    ensures v == t.Apply(u)
  {
  }

  lemma LevelTurnValid(h: Quat)
    requires h.Level()
    ensures TurnOf(h).Valid()
  {
  }

  /** Only the identity leaves a direction where it is. */
  lemma FixesDirection(t: Turn, u: Turn)
    requires u.cos * u.cos + u.sin * u.sin == 1.0
    ensures t.Apply(u) == u <==> t == Turn(1.0, 0.0)
  {
  }

  lemma TurnsCommute(c: real, s: real, a: real, b: real, x: real, y: real)
    ensures a * (c * x - s * y) + b * (s * x + c * y) == c * (a * x + b * y) - s * (a * y - b * x)
    ensures a * (s * x + c * y) - b * (c * x - s * y) == s * (a * x + b * y) + c * (a * y - b * x)
  {
  }

  lemma ApplyThenUndo(t: Turn, u: Turn, p: Turn)
    ensures u.Undo(t.Apply(p)) == t.Apply(u.Undo(p))
  {
    hide Turn.Apply, Turn.Undo;
    var r, v := t.Apply(p), Turn(u.cos * p.cos + u.sin * p.sin, u.cos * p.sin - u.sin * p.cos);
    ApplyIs(t, p);
    ApplyIs(t, v);
    UndoIs(u, p, u.cos, u.sin, p.cos, p.sin, v.cos, v.sin);
    TurnsCommute(t.cos, t.sin, u.cos, u.sin, p.cos, p.sin);
    UndoIs(u, r, u.cos, u.sin, t.cos * p.cos - t.sin * p.sin, t.sin * p.cos + t.cos * p.sin,
           t.Apply(v).cos, t.Apply(v).sin);
  }

  // ----- what an offset does to a run -----

  function Flat(v: Vec): Turn {
    Turn(v.x, v.y)
  }

  /** The references in force were taken with the arm straight up or down. */
  predicate VerticalCapture(samples: seq<Quat>) {
    match LatestCapture(samples)
    case None => false
    case Some(q) => Vertical(q)
  }

  /** The state of a run next to that of the run turned by t, theta aside. Zone, height, speed and roll
      reference are the same. Under a reference with a heading that reference has turned along and the
      position is the same; under a vertical one the position has turned instead. */
  predicate Shadow(t: Turn, vertical: bool, arm: Arm, turned: Arm) {
    && turned.zone == arm.zone && turned.pos.z == arm.pos.z
    && turned.speed == arm.speed && turned.referenceRoll == arm.referenceRoll
    && if vertical then turned.reference == arm.reference && Flat(turned.pos) == t.Apply(Flat(arm.pos))
       else turned.reference == t.Apply(arm.reference) && turned.pos == arm.pos
  }

  lemma StepShadow(m: Maths, h: Quat, vertical: bool, arm: Arm, turned: Arm, q: Quat)
    requires m.Lawful() && h.Level() && q.Unit()
    requires Shadow(TurnOf(h), vertical, arm, turned) || (Calibrates(arm) && turned == arm)
    ensures Shadow(TurnOf(h), if Calibrates(arm) then Vertical(q) else vertical,
                   Step(m, arm, q), Step(m, turned, h.Times(q)))
  {
    LevelTurnValid(h);
    TurnedPose(h, q);
    var t, reference := TurnOf(h), if Calibrates(arm) then m.Direction(HeadingAngle(m, q)) else arm.reference;
    if Calibrates(arm) {
      if Vertical(q) {
        assert t.Apply(Turn(0.0, 0.0)) == Turn(0.0, 0.0);
      } else {
        DirectionTurns(m, t, Heading(q));
      }
    }
    ApplyUndo(t, reference, Heading(q));
    ApplyThenUndo(t, reference, Heading(q));
    hide Quat.Times, Heading, Drop, RollSide, RollUp, TurnOf, Turn.Apply, Turn.Undo, Turn.Valid;
    hide Maths.Direction, Maths.Lawful;
  }

  /** A capture follows a heading offset if and only if the captured sample has a heading to turn, or the
      offset is none. */
  lemma CaptureFollowsIff(m: Maths, h: Quat, arm: Arm, q: Quat)
    requires m.Lawful() && h.Level() && q.Unit() && Calibrates(arm)
    ensures Step(m, arm, h.Times(q)).reference == TurnOf(h).Apply(Step(m, arm, q).reference)
       <==> !Vertical(q) || TurnOf(h) == Turn(1.0, 0.0)
  {
    StepShadow(m, h, false, arm, arm, q);
    FromVerticalAngleIsTurn(m, HeadingAngle(m, q));
    FixesDirection(TurnOf(h), m.Direction(HeadingAngle(m, q)));
    hide Quat.Times, HeadingAngle, Position, Roll, Vertical, TurnOf, Turn.Apply, Maths.Lawful, Maths.Direction;
  }

  /** The last step of a run and of the run next to it. */
  lemma {:induction false} RunUnfold(m: Maths, h: Quat, samples: seq<Quat>)
    requires m.pi != 0.0 && samples != []
    ensures var before, q := samples[..|samples| - 1], samples[|samples| - 1];
            && Run(m, samples) == Step(m, Run(m, before), q)
            && Run(m, Turned(h, samples)) == Step(m, Run(m, Turned(h, before)), h.Times(q))
            && (VerticalCapture(samples) <==>
                  (if Calibrates(Run(m, before)) then Vertical(q) else VerticalCapture(before)))
            && (before == [] ==> Run(m, before) == INITIAL && Run(m, Turned(h, before)) == INITIAL)
  {
    CapturesIs(m, samples);
    hide Step, Vertical, Calibrates, Captures, Quat.Times;
    assert Turned(h, samples)[..|samples| - 1] == Turned(h, samples[..|samples| - 1]);
  }

  /** On every run a heading offset leaves zones, heights, speeds and roll references alone. */
  lemma {:induction false} RunShadow(m: Maths, h: Quat, samples: seq<Quat>)
    requires m.Lawful() && h.Level() && AllUnit(samples) && samples != []
    ensures Shadow(TurnOf(h), VerticalCapture(samples), Run(m, samples), Run(m, Turned(h, samples)))
    decreases |samples|
  {
    var before, q := samples[..|samples| - 1], samples[|samples| - 1];
    hide Run, Turned, VerticalCapture, Step, Shadow, Quat.Times, Quat.Unit, Quat.Level, TurnOf, Vertical, Maths.Lawful;
    assert m.pi != 0.0 by { LawfulPi(m); }
    RunUnfold(m, h, samples);
    assert q in samples;
    if before != [] { RunShadow(m, h, before); }
    StepShadow(m, h, VerticalCapture(before), Run(m, before), Run(m, Turned(h, before)), q);
  }

  lemma LawfulPi(m: Maths)
    requires m.Lawful()
    ensures m.pi > 0.0
  {
  }

  // ----- when it shows -----

  /** The arm is in the middle with a heading, relative to a reference that was taken without one. */
  predicate Exposed(samples: seq<Quat>)
    requires samples != []
  {
    ZoneAfter(samples) == Mid && !Vertical(samples[|samples| - 1]) && VerticalCapture(samples)
  }

  predicate NeverExposed(samples: seq<Quat>) {
    forall k | 0 < k <= |samples| :: !Exposed(samples[..k])
  }

  /** Undoing a direction takes only the origin to the origin. */
  lemma UndoZeroIff(u: Turn, p: Turn)
    requires u.Valid()
    ensures u.Undo(p) == Turn(0.0, 0.0) <==> p == Turn(0.0, 0.0)
  {
    var r := u.Undo(p);
    assert r.cos == u.cos * p.cos + u.sin * p.sin && r.sin == u.cos * p.sin - u.sin * p.cos;
    assert u.cos * u.cos + u.sin * u.sin == 1.0;
    hide *;
    TurnSquare(Turn(u.cos, -u.sin), p, r);
    NonZeroSquare(p.cos, p.sin);
    NonZeroSquare(r.cos, r.sin);
  }

  /** The direction of a vector in degrees. */
  function Degrees(m: Maths, p: Turn): real
    requires m.pi != 0.0
  {
    m.atan2(p.sin, p.cos) * 180.0 / m.pi
  }

  /** Two directions that are a turn apart have the same angle only if the turn is none. */
  lemma AngleTurns(m: Maths, t: Turn, p: Turn)
    requires m.Lawful() && t.Valid() && p != Turn(0.0, 0.0)
    ensures Degrees(m, t.Apply(p)) == Degrees(m, p) <==> t == Turn(1.0, 0.0)
  {
    var r := t.Apply(p);
    DirectionTurns(m, t, p);
    DirectionPolar(m, p);
    FixesDirection(t, m.Direction(m.atan2(p.sin, p.cos)));
    ScaledSame(m.atan2(r.sin, r.cos), m.atan2(p.sin, p.cos), m.pi);
    assert t == Turn(1.0, 0.0) ==> r == p;
    hide Turn.Apply, Turn.Valid, Maths.Lawful, Maths.Direction;
  }

  lemma ReferenceIsDirection(m: Maths, samples: seq<Quat>)
    requires m.Lawful() && samples != []
    ensures Run(m, samples).reference.Valid()
  {
    hide Run, LatestCapture, HeadingAngle, Roll, Maths.Direction, Turn.Valid;
    LawfulPi(m);
    ReferenceIsLatestCapture(m, samples);
    FromVerticalAngleIsTurn(m, HeadingAngle(m, LatestCapture(samples).value));
  }

  /** Where the arm points after a step, and what theta is when that is in the middle. */
  lemma StepPosition(m: Maths, arm: Arm, q: Quat)
    requires m.pi != 0.0
    ensures var next := Step(m, arm, q);
            && Flat(next.pos) == next.reference.Undo(Heading(q))
            && next.theta == if next.zone == Mid then Degrees(m, Flat(next.pos)) else arm.theta
  {
    hide Heading, Drop, Roll, HeadingAngle, Turn.Undo;
  }

  /** The two steps that end a run and the run next to it, as far as theta goes. */
  lemma RunPositions(m: Maths, h: Quat, samples: seq<Quat>)
    requires m.Lawful() && h.Level() && AllUnit(samples) && samples != []
    ensures var before, arm, turned := samples[..|samples| - 1], Run(m, samples), Run(m, Turned(h, samples));
            && turned.zone == arm.zone == ZoneAfter(samples)
            && arm.theta == (if arm.zone == Mid then Degrees(m, Flat(arm.pos)) else Run(m, before).theta)
            && turned.theta ==
                 (if arm.zone == Mid then Degrees(m, Flat(turned.pos)) else Run(m, Turned(h, before)).theta)
            && Flat(turned.pos) ==
                 (if VerticalCapture(samples) then TurnOf(h).Apply(Flat(arm.pos)) else Flat(arm.pos))
            && (Flat(arm.pos) == Turn(0.0, 0.0) <==> Vertical(samples[|samples| - 1]))
  {
    var before, q := samples[..|samples| - 1], samples[|samples| - 1];
    hide Run, Turned, VerticalCapture, Step, Quat.Times, Quat.Unit, Quat.Level, TurnOf, Maths.Lawful, Heading;
    hide Turn.Apply, Degrees, Calibrates;
    LawfulPi(m);
    RunUnfold(m, h, samples);
    RunShadow(m, h, samples);
    StepPosition(m, Run(m, before), q);
    StepPosition(m, Run(m, Turned(h, before)), h.Times(q));
    PositionIsZero(m, samples);
    ZoneIs(m, samples);
  }

  lemma PositionIsZero(m: Maths, samples: seq<Quat>)
    requires m.Lawful() && samples != []
    ensures Flat(Run(m, samples).pos) == Turn(0.0, 0.0) <==> Vertical(samples[|samples| - 1])
  {
    var before, q := samples[..|samples| - 1], samples[|samples| - 1];
    RunUnfold(m, Quat(0.0, 0.0, 0.0, 1.0), samples);
    StepPosition(m, Run(m, before), q);
    var u := Run(m, samples).reference;
    assert u.Undo(Heading(q)) == Turn(0.0, 0.0) <==> Heading(q) == Turn(0.0, 0.0) by {
      ReferenceIsDirection(m, samples);
      UndoZeroIff(u, Heading(q));
    }
    hide Run, Step, Heading, Flat, Maths.Lawful, Turn.Undo, Turn.Valid;
  }

  lemma ApplyNothing(t: Turn, p: Turn)
    ensures Turn(1.0, 0.0).Apply(p) == p && t.Apply(Turn(0.0, 0.0)) == Turn(0.0, 0.0) == t.Undo(Turn(0.0, 0.0))
  {
  }

  /** If theta agreed so far, it goes on to agree unless an offset meets an exposed moment. */
  lemma ThetaAgreesIff(m: Maths, h: Quat, samples: seq<Quat>)
    requires m.Lawful() && h.Level() && AllUnit(samples) && samples != []
    requires Exposed(samples) ||
             var before := samples[..|samples| - 1]; Run(m, Turned(h, before)).theta == Run(m, before).theta
    ensures Run(m, Turned(h, samples)).theta == Run(m, samples).theta
       <==> TurnOf(h) == Turn(1.0, 0.0) || !Exposed(samples)
  {
    hide Run, Turned, VerticalCapture, Quat.Unit, Quat.Level, TurnOf, Maths.Lawful, Vertical, Flat;
    hide Turn.Apply, Turn.Valid, Degrees;
    LawfulPi(m);
    var p := Flat(Run(m, samples).pos);
    RunPositions(m, h, samples);
    ApplyNothing(TurnOf(h), p);
    LevelTurnValid(h);
    if p != Turn(0.0, 0.0) { AngleTurns(m, TurnOf(h), p); }
  }

  /** What an observer sees of a run, sample by sample. */
  function Trace(m: Maths, samples: seq<Quat>): seq<(Zone, real, real)>
    requires m.pi != 0.0
  {
    if samples == [] then []
    else Trace(m, samples[..|samples| - 1]) + [(Run(m, samples).zone, Run(m, samples).theta, Run(m, samples).speed)]
  }

  lemma {:induction false} NeverExposedStep(samples: seq<Quat>)
    requires samples != []
    ensures NeverExposed(samples) <==> NeverExposed(samples[..|samples| - 1]) && !Exposed(samples)
  {
    var before := samples[..|samples| - 1];
    assert samples[..|samples|] == samples;
    assert forall k | 0 < k <= |before| :: samples[..k] == before[..k];
    hide Exposed;
  }

  lemma TraceOfNothing(m: Maths, h: Quat)
    requires m.pi != 0.0
    ensures Trace(m, []) == Trace(m, Turned(h, [])) && NeverExposed([])
  {
  }

  lemma {:induction false} TraceEnd(m: Maths, samples: seq<Quat>)
    requires m.pi != 0.0 && samples != []
    ensures Trace(m, samples) != [] && Trace(m, samples)[|Trace(m, samples)| - 1].1 == Run(m, samples).theta
  {
    hide Run;
  }

  /** Two traces agree if they agreed so far and their last entries do. */
  lemma {:induction false} TraceStep(m: Maths, h: Quat, samples: seq<Quat>)
    requires m.pi != 0.0 && samples != []
    ensures var before, arm, turned := samples[..|samples| - 1], Run(m, samples), Run(m, Turned(h, samples));
            && (Trace(m, Turned(h, samples)) == Trace(m, samples) <==>
                  && Trace(m, Turned(h, before)) == Trace(m, before)
                  && turned.zone == arm.zone && turned.theta == arm.theta && turned.speed == arm.speed)
            && (Trace(m, Turned(h, before)) == Trace(m, before) ==>
                  Run(m, Turned(h, before)).theta == Run(m, before).theta)
  {
    var before := samples[..|samples| - 1];
    assert Turned(h, samples)[..|samples| - 1] == Turned(h, before);
    var entry := (Run(m, samples).zone, Run(m, samples).theta, Run(m, samples).speed);
    assert (Trace(m, before) + [entry])[|Trace(m, before)|] == entry;
    assert (Trace(m, before) + [entry])[..|Trace(m, before)|] == Trace(m, before);
    if before != [] {
      TraceEnd(m, before);
      TraceEnd(m, Turned(h, before));
    } else {
      assert Run(m, before) == Run(m, Turned(h, before));
    }
    hide Step, Run;
  }

  /** A constant heading offset is invisible in zone, theta and speed over a whole run if and only if it is
      none, or the arm is never in the middle with a heading while its reference was taken without one. */
  lemma {:induction false} TraceOffsetInvisibleIff(m: Maths, h: Quat, samples: seq<Quat>)
    requires m.Lawful() && h.Level() && AllUnit(samples)
    ensures Trace(m, Turned(h, samples)) == Trace(m, samples)
       <==> TurnOf(h) == Turn(1.0, 0.0) || NeverExposed(samples)
    decreases |samples|
  {
    hide Run, Turned, Trace, Exposed, NeverExposed, VerticalCapture, Quat.Unit, Quat.Level, TurnOf, Maths.Lawful;
    LawfulPi(m);
    if samples == [] {
      TraceOfNothing(m, h);
    } else {
      var before := samples[..|samples| - 1];
      TraceOffsetInvisibleIff(m, h, before);
      NeverExposedStep(samples);
      TraceStep(m, h, samples);
      RunShadow(m, h, samples);
      if Trace(m, Turned(h, before)) == Trace(m, before) {
        ThetaAgreesIff(m, h, samples);
      }
    }
  }

  // ----- runs without a vertical capture, and one with -----

  /** No sample that takes the references points straight up or down. */
  predicate NoVerticalCapture(samples: seq<Quat>) {
    forall k | 0 < k <= |samples| && Captures(samples[..k]) :: !Vertical(samples[k - 1])
  }

  lemma {:induction false} NoVerticalCaptureHides(samples: seq<Quat>)
    requires NoVerticalCapture(samples)
    ensures !VerticalCapture(samples) && NeverExposed(samples)
    decreases |samples|
  {
    hide Vertical, Captures, NeverExposed, ZoneAfter;
    if samples != [] {
      var before := samples[..|samples| - 1];
      assert forall k | 0 < k <= |before| :: before[..k] == samples[..k];
      assert samples[..|samples|] == samples;
      NoVerticalCaptureHides(before);
      NeverExposedStep(samples);
    } else {
      NeverExposedNone();
    }
  }

  lemma NeverExposedNone()
    ensures NeverExposed([])
  {
  }

  /** The same state with the reference turned along. */
  function WithTurnedReference(t: Turn, arm: Arm): Arm {
    arm.(reference := t.Apply(arm.reference))
  }

  /** As long as no reference is taken straight up or down, an offset changes nothing but the reference,
      which turns along. */
  lemma HeadingOffsetInvisible(m: Maths, h: Quat, samples: seq<Quat>)
    requires m.Lawful() && h.Level() && AllUnit(samples) && samples != [] && NoVerticalCapture(samples)
    ensures Run(m, Turned(h, samples)) == WithTurnedReference(TurnOf(h), Run(m, samples))
    ensures Trace(m, Turned(h, samples)) == Trace(m, samples)
  {
    NoVerticalCaptureHides(samples);
    RunShadow(m, h, samples);
    TraceOffsetInvisibleIff(m, h, samples);
    TraceStep(m, h, samples);
    hide Run, Trace, NoVerticalCapture, VerticalCapture, NeverExposed, TurnOf, Maths.Lawful;
  }

  /** Raise the arm straight up as the first sample, and every heading offset shows in theta two samples
      later. */
  lemma VerticalCaptureShows(m: Maths, h: Quat)
    requires m.Lawful() && h.Level()
    ensures var up, ahead := Quat(0.5, 0.5, -0.5, 0.5), Quat(0.0, 0.0, 0.0, 1.0);
            var samples := [up, ahead, ahead];
            && AllUnit(samples) && Vertical(up)
            && (Run(m, Turned(h, samples)).theta == Run(m, samples).theta <==> TurnOf(h) == Turn(1.0, 0.0))
  {
    hide *;
    var up, ahead := Quat(0.5, 0.5, -0.5, 0.5), Quat(0.0, 0.0, 0.0, 1.0);
    SamplePoses();
    RunOfThree(up, ahead);
    ThetaAgreesIff(m, h, [up, ahead, ahead]);
  }

  lemma SamplePoses()
    ensures var up, ahead := Quat(0.5, 0.5, -0.5, 0.5), Quat(0.0, 0.0, 0.0, 1.0);
            && AllUnit([up, ahead, ahead]) && Vertical(up) && Drop(up) == -1.0
            && !Vertical(ahead) && Drop(ahead) == 0.0
  {
  }

  lemma RunOfThree(up: Quat, ahead: Quat)
    requires Vertical(up) && Drop(up) == -1.0 && !Vertical(ahead) && Drop(ahead) == 0.0
    ensures Exposed([up, ahead, ahead])
  {
    hide Vertical, Drop;
    var s1, s2, s3 := [up], [up, ahead], [up, ahead, ahead];
    assert s1[..0] == [] && s2[..1] == s1 && s3[..2] == s2;
    assert LatestCapture(s1) == Some(up) && LatestCapture(s2) == Some(up) && LatestCapture(s3) == Some(up);
  }
}
