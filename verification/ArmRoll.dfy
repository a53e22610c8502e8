/** What the numbers of the arm pose mean in space: the zone is how far up the arm points, theta turns the
    reference into the heading, and the speed follows a turn of the arm about its own axis. */
module ArmRoll {
  import opened Basics
  import opened Rotations
  import opened ArmPose
  import opened ArmRuns

  // ----- the axes of a pose -----

  /** The height of the arm and of its two sides, by rotating the axes. */
  lemma AxisHeights(q: Quat)
    requires q.Unit()
    ensures q.Rotate(Vec(-1.0, 0.0, 0.0)).z == -Drop(q)
    ensures q.Rotate(Vec(0.0, 1.0, 0.0)).z == RollSide(q)
    ensures q.Rotate(Vec(0.0, 0.0, 1.0)).z == RollUp(q)
  {
    hide *;
    RotateAxis(q);
    RotateSide(q);
    RotateTop(q);
  }

  lemma RotateSide(q: Quat)
    ensures q.Rotate(Vec(0.0, 1.0, 0.0)).z == RollSide(q)
  {
    var half := q.Times(Quat(0.0, 1.0, 0.0, 0.0));
    assert half == Quat(-q.z, q.w, q.x, -q.y);
  }

  lemma RotateTop(q: Quat)
    requires q.Unit()
    ensures q.Rotate(Vec(0.0, 0.0, 1.0)).z == RollUp(q)
  {
    var half := q.Times(Quat(0.0, 0.0, 1.0, 0.0));
    assert half == Quat(q.y, -q.x, q.w, -q.z);
    assert half.Times(q.Conjugate()).z == q.w * q.w + q.z * q.z - q.x * q.x - q.y * q.y;
    hide Quat.Times, Quat.Conjugate;
  }

  /** Up, down and the middle are the heights of the arm above 0.5, below -0.5 and between. */
  lemma ZoneIsHeight(q: Quat)
    requires q.Unit()
    ensures var height := q.Rotate(Vec(-1.0, 0.0, 0.0)).z;
            && (ZoneOf(q) == Up <==> height > 0.5)
            && (ZoneOf(q) == Down <==> height < -0.5)
            && (ZoneOf(q) == Mid <==> -0.5 <= height <= 0.5)
  {
    AxisHeights(q);
    hide Quat.Rotate, Quat.Unit, Drop, RollSide, RollUp;
  }

  // ----- rolling -----

  /** A rotation about the x axis. */
  predicate Rolls(r: Quat) {
    r.y == 0.0 && r.z == 0.0 && r.x * r.x + r.w * r.w == 1.0
  }

  /** The turn it performs: twice its half angle. */
  function RollTurn(r: Quat): Turn {
    Turn(r.w * r.w - r.x * r.x, 2.0 * (r.x * r.w))
  }

  /** Where the sides of the arm point: its roll angle as a direction. */
  function Sides(q: Quat): Turn {
    Turn(RollUp(q), RollSide(q))
  }

  lemma RolledComponents(q: Quat, r: Quat)
    requires r.y == 0.0 && r.z == 0.0
    ensures var p := q.Times(r);
            && p.x == q.w * r.x + q.x * r.w && p.y == q.y * r.w + q.z * r.x
            && p.z == q.z * r.w - q.y * r.x && p.w == q.w * r.w - q.x * r.x
  {
  }

  lemma RolledAxis(c: real, s: real, x: real, y: real, z: real, w: real)
    requires s * s + c * c == 1.0
    ensures (w * c - x * s) * (z * c - y * s) + (w * s + x * c) * (y * c + z * s) == w * z + x * y
    ensures (y * c + z * s) * (y * c + z * s) + (z * c - y * s) * (z * c - y * s) == y * y + z * z
    ensures (w * s + x * c) * (z * c - y * s) - (w * c - x * s) * (y * c + z * s) == x * z - w * y
    ensures (w * s + x * c) * (w * s + x * c) + (w * c - x * s) * (w * c - x * s) == x * x + w * w
  {
  }

  lemma RolledSides(c: real, s: real, x: real, y: real, z: real, w: real)
    ensures (w * c - x * s) * (w * s + x * c) + (y * c + z * s) * (z * c - y * s)
         == (c * c - s * s) * (w * x + y * z) + (s * c) * (w * w + z * z - x * x - y * y)
    ensures (w * c - x * s) * (w * c - x * s) + (z * c - y * s) * (z * c - y * s)
            - (w * s + x * c) * (w * s + x * c) - (y * c + z * s) * (y * c + z * s)
         == (c * c - s * s) * (w * w + z * z - x * x - y * y) - 4.0 * ((s * c) * (w * x + y * z))
  {
  }

  lemma AxisNamed(c: real, s: real, x: real, y: real, z: real, w: real, X: real, Y: real, Z: real, W: real)
    requires s * s + c * c == 1.0
    requires X == w * s + x * c && Y == y * c + z * s && Z == z * c - y * s && W == w * c - x * s
    ensures W * Z + X * Y == w * z + x * y && Y * Y + Z * Z == y * y + z * z
    ensures X * Z - W * Y == x * z - w * y && X * X + W * W == x * x + w * w
  {
    RolledAxis(c, s, x, y, z, w);
  }

  lemma SidesNamed(c: real, s: real, x: real, y: real, z: real, w: real, X: real, Y: real, Z: real, W: real)
    requires X == w * s + x * c && Y == y * c + z * s && Z == z * c - y * s && W == w * c - x * s
    ensures W * X + Y * Z == (c * c - s * s) * (w * x + y * z) + (s * c) * (w * w + z * z - x * x - y * y)
    ensures W * W + Z * Z - X * X - Y * Y
         == (c * c - s * s) * (w * w + z * z - x * x - y * y) - 4.0 * ((s * c) * (w * x + y * z))
  {
    RolledSides(c, s, x, y, z, w);
  }

  /** The products that the axis and the sides of a rolled pose are made of, in those of the pose. */
  lemma RolledProducts(q: Quat, r: Quat)
    requires Rolls(r)
    ensures var p := q.Times(r);
            && p.w * p.z + p.x * p.y == q.w * q.z + q.x * q.y && p.y * p.y + p.z * p.z == q.y * q.y + q.z * q.z
            && p.x * p.z - p.w * p.y == q.x * q.z - q.w * q.y && p.x * p.x + p.w * p.w == q.x * q.x + q.w * q.w
  {
    var p := q.Times(r);
    RolledComponents(q, r);
    assert r.x * r.x + r.w * r.w == 1.0;
    hide *;
    AxisNamed(r.w, r.x, q.x, q.y, q.z, q.w, p.x, p.y, p.z, p.w);
  }

  lemma AxisIs(q: Quat, sin: real, flat: real, drop: real, rest: real)
    requires q.w * q.z + q.x * q.y == sin && q.y * q.y + q.z * q.z == flat && q.x * q.z - q.w * q.y == drop
    requires q.x * q.x + q.w * q.w == rest
    ensures Heading(q) == Turn(1.0 - 2.0 * flat, 2.0 * sin) && Drop(q) == 2.0 * drop
    ensures q.Unit() <==> flat + rest == 1.0
  {
  }

  /** Turning the arm about its own axis leaves its heading and its height alone. */
  lemma RolledAxisStays(q: Quat, r: Quat)
    requires q.Unit() && Rolls(r)
    ensures q.Times(r).Unit() && Heading(q.Times(r)) == Heading(q) && Drop(q.Times(r)) == Drop(q)
  {
    hide *;
    RolledProducts(q, r);
    var sin, flat, drop, rest := q.w * q.z + q.x * q.y, q.y * q.y + q.z * q.z, q.x * q.z - q.w * q.y,
                                 q.x * q.x + q.w * q.w;
    AxisIs(q, sin, flat, drop, rest);
    AxisIs(q.Times(r), sin, flat, drop, rest);
  }

  /** Half the side and the height of a pose, without the constant of RollUp. */
  function Side2(q: Quat): real {
    q.w * q.x + q.y * q.z
  }

  function Up4(q: Quat): real {
    q.w * q.w + q.z * q.z - q.x * q.x - q.y * q.y
  }

  lemma SidesAre(q: Quat)
    requires q.Unit()
    ensures Sides(q) == Turn(Up4(q), 2.0 * Side2(q))
  {
  }

  lemma AppliedTurn(c: real, s: real, side: real, up: real, t: Turn, p: Turn)
    requires t.cos == c * c - s * s && t.sin == 2.0 * (s * c) && p.cos == up && p.sin == 2.0 * side
    ensures t.Apply(p) == Turn((c * c - s * s) * up - 4.0 * ((s * c) * side),
                               2.0 * ((c * c - s * s) * side + (s * c) * up))
  {
  }

  lemma RolledSideProducts(q: Quat, r: Quat)
    requires Rolls(r)
    ensures var p, side, up := q.Times(r), q.w * q.x + q.y * q.z, q.w * q.w + q.z * q.z - q.x * q.x - q.y * q.y;
            && p.w * p.x + p.y * p.z == (r.w * r.w - r.x * r.x) * side + (r.x * r.w) * up
            && p.w * p.w + p.z * p.z - p.x * p.x - p.y * p.y
               == (r.w * r.w - r.x * r.x) * up - 4.0 * ((r.x * r.w) * side)
  {
    var p := q.Times(r);
    RolledComponents(q, r);
    hide Rolls, Quat.Times;
    SidesNamed(r.w, r.x, q.x, q.y, q.z, q.w, p.x, p.y, p.z, p.w);
  }

  lemma RolledSidesAre(q: Quat, r: Quat)
    requires Rolls(r)
    ensures Side2(q.Times(r)) == (r.w * r.w - r.x * r.x) * Side2(q) + (r.x * r.w) * Up4(q)
    ensures Up4(q.Times(r)) == (r.w * r.w - r.x * r.x) * Up4(q) - 4.0 * ((r.x * r.w) * Side2(q))
  {
    hide Rolls, Quat.Times;
    RolledSideProducts(q, r);
  }

  lemma RollTurnIs(r: Quat)
    ensures RollTurn(r).cos == r.w * r.w - r.x * r.x && RollTurn(r).sin == 2.0 * (r.x * r.w)
  {
  }

  /** And turns its sides by just that angle. */
  lemma RolledSidesTurn(q: Quat, r: Quat)
    requires q.Unit() && Rolls(r)
    ensures Sides(q.Times(r)) == RollTurn(r).Apply(Sides(q))
  {
    hide *;
    RolledAxisStays(q, r);
    SidesAre(q);
    SidesAre(q.Times(r));
    RolledSidesAre(q, r);
    RollTurnIs(r);
    AppliedTurn(r.w, r.x, Side2(q), Up4(q), RollTurn(r), Sides(q));
  }

  // ----- the roll angle -----

  /** A level arm has no roll. */
  lemma LevelHasNoRoll(m: Maths, q: Quat)
    requires m.Lawful() && q.Level()
    ensures Roll(m, q) == 0.0 && Sides(q) == Turn(1.0, 0.0)
  {
    LevelSides(q);
    assert m.Ahead(1.0);
    hide Maths.Lawful, Sides, Quat.Level;
  }

  lemma LevelSides(q: Quat)
    requires q.Level()
    ensures RollUp(q) == 1.0 && RollSide(q) == 0.0
  {
  }

  /** A tenth of the roll is the angle in which the sides point. */
  lemma RollIsSides(m: Maths, q: Quat)
    requires m.Lawful() && Sides(q) != Turn(0.0, 0.0)
    ensures PolarForm(m.hypot(RollSide(q), RollUp(q)), m.Direction(Roll(m, q) / 10.0), Sides(q))
  {
    DirectionPolar(m, Sides(q));
    hide Maths.Lawful, Maths.Direction, PolarForm, RollSide, RollUp;
    TenTimes(m.atan2(RollSide(q), RollUp(q)));
  }

  lemma TenTimes(a: real)
    ensures a * 10.0 / 10.0 == a
  {
  }

  /** Turning the arm about its own axis turns its roll angle along. */
  lemma RollFollows(m: Maths, q: Quat, r: Quat)
    requires m.Lawful() && q.Unit() && Rolls(r) && Sides(q) != Turn(0.0, 0.0)
    ensures m.Direction(Roll(m, q.Times(r)) / 10.0) == RollTurn(r).Apply(m.Direction(Roll(m, q) / 10.0))
  {
    RolledSidesTurn(q, r);
    RollTurnValid(r);
    hide Maths.Lawful, Maths.Direction, RollSide, RollUp, Quat.Times, Quat.Unit, Rolls, RollTurn;
    hide Turn.Apply, Turn.Valid;
    TenTimes(m.atan2(RollSide(q), RollUp(q)));
    TenTimes(m.atan2(RollSide(q.Times(r)), RollUp(q.Times(r))));
    DirectionTurns(m, RollTurn(r), Sides(q));
  }

  lemma RollTurnValid(r: Quat)
    requires Rolls(r)
    ensures RollTurn(r).Valid()
  {
  }

  // ----- theta and speed over a run -----

  function Radians(m: Maths, degrees: real): real {
    degrees * m.pi / 180.0
  }

  lemma RadiansOfDegrees(m: Maths, a: real)
    requires m.pi > 0.0
    ensures Radians(m, a * 180.0 / m.pi) == a
  {
    var d := a * 180.0 / m.pi;
    assert d * m.pi == a * 180.0;
  }

  lemma ApplyUndone(t: Turn, p: Turn)
    requires t.Valid()
    ensures t.Apply(t.Undo(p)) == p
  {
    var u := t.Undo(p);
    assert u.cos == t.cos * p.cos + t.sin * p.sin && u.sin == t.cos * p.sin - t.sin * p.cos;
    assert t.cos * t.cos + t.sin * t.sin == 1.0;
    hide *;
    UndoneIs(t.cos, t.sin, p.cos, p.sin, u.cos, u.sin);
    ApplyIs(t, u);
  }

  lemma UndoneIs(c: real, s: real, x: real, y: real, u: real, v: real)
    requires c * c + s * s == 1.0 && u == c * x + s * y && v == c * y - s * x
    ensures c * u - s * v == x && s * u + c * v == y
  {
    assert c * u - s * v == (c * c + s * s) * x;
    assert s * u + c * v == (c * c + s * s) * y;
  }

  /** A vector turned is its length in the turned direction. */
  lemma PolarApplied(t: Turn, h: real, u: Turn, p: Turn)
    requires t.Valid() && PolarForm(h, u, p)
    ensures PolarForm(h, t.Apply(u), t.Apply(p))
  {
    ApplyIs(t, u);
    ApplyIs(t, p);
    var v, r := t.Apply(u), t.Apply(p);
    assert t.cos * t.cos + t.sin * t.sin == 1.0 && u.cos * u.cos + u.sin * u.sin == 1.0;
    hide Turn.Apply, Turn.Valid;
    TurnSquare(t, u, v);
    TurnedLength(t.cos, t.sin, u.cos, u.sin, h);
    Scale(p.cos, h * u.cos, t.cos);
    Scale(p.cos, h * u.cos, t.sin);
    Scale(p.sin, h * u.sin, t.cos);
    Scale(p.sin, h * u.sin, t.sin);
  }

  lemma TurnedLength(c: real, s: real, x: real, y: real, h: real)
    ensures h * (c * x - s * y) == c * (h * x) - s * (h * y)
    ensures h * (s * x + c * y) == s * (h * x) + c * (h * y)
  {
  }

  /** Whenever the arm is in the middle, turning the reference by theta gives the heading; otherwise theta
      stays what it was. */
  lemma ThetaOfRun(m: Maths, samples: seq<Quat>)
    requires m.Lawful() && samples != []
    ensures var arm, before, q := Run(m, samples), Run(m, samples[..|samples| - 1]), samples[|samples| - 1];
            && (arm.zone != Mid ==> arm.theta == before.theta)
            && (arm.zone == Mid && !Vertical(q) ==>
                  exists h :: PolarForm(h, arm.reference.Apply(m.Direction(Radians(m, arm.theta))), Heading(q)))
  {
    LawfulPi(m);
    hide Heading, Maths.Direction, Maths.Lawful, Turn.Apply, Turn.Undo, Turn.Valid, PolarForm, Flat, Step;
    var arm, q := Run(m, samples), samples[|samples| - 1];
    StepPosition(m, Run(m, samples[..|samples| - 1]), q);
    if arm.zone == Mid && !Vertical(q) {
      PositionIsZero(m, samples);
      ReferenceIsDirection(m, samples);
      hide Run;
      var p := Flat(arm.pos);
      DirectionPolar(m, p);
      RadiansOfDegrees(m, m.atan2(p.sin, p.cos));
      PolarApplied(arm.reference, m.hypot(p.sin, p.cos), m.Direction(m.atan2(p.sin, p.cos)), p);
      ApplyUndone(arm.reference, Heading(q));
    }
  }

  /** The speed in the middle is the captured roll, truncated, less the roll now; down it is 0, and up it
      stays what it was. */
  lemma SpeedOfRun(m: Maths, samples: seq<Quat>)
    requires m.pi != 0.0 && samples != []
    ensures LatestCapture(samples).Some?
    ensures Run(m, samples).speed ==
            match ZoneAfter(samples)
            case Mid => Truncate(Roll(m, LatestCapture(samples).value)) as real - Roll(m, samples[|samples| - 1])
            case Down => 0.0
            case Up => Run(m, samples[..|samples| - 1]).speed
  {
    ReferenceIsLatestCapture(m, samples);
    ZoneIs(m, samples);
    assert Run(m, samples) == Step(m, Run(m, samples[..|samples| - 1]), samples[|samples| - 1]);
    hide Run, Roll, HeadingAngle, Position, Calibrates, ZoneAfter, LatestCapture, Truncate;
  }

  /** The motor follows the arm: after a level capture the speed is ten times the angle the arm has since
      been turned about its own axis, the other way round. */
  lemma SpeedFollowsRoll(m: Maths, samples: seq<Quat>, captured: Quat, r: Quat)
    requires m.Lawful() && samples != [] && ZoneAfter(samples) == Mid && LatestCapture(samples) == Some(captured)
    requires captured.Level() && Rolls(r) && samples[|samples| - 1] == captured.Times(r)
    ensures m.Direction(-Run(m, samples).speed / 10.0) == RollTurn(r)
  {
    hide Run, Roll, ZoneAfter, LatestCapture, Quat.Times, Rolls, RollTurn, Sides, Maths.Direction, Maths.Lawful;
    LawfulPi(m);
    SpeedOfRun(m, samples);
    LevelHasNoRoll(m, captured);
    assert captured.Unit();
    hide Quat.Level, Quat.Unit;
    RollFollows(m, captured, r);
    LevelRollDirection(m, captured, RollTurn(r));
  }

  lemma LevelRollDirection(m: Maths, q: Quat, t: Turn)
    requires m.Lawful() && q.Level()
    ensures t.Apply(m.Direction(Roll(m, q) / 10.0)) == t
  {
    LevelHasNoRoll(m, q);
    RollIsSides(m, q);
    hide Roll, Maths.Lawful, Quat.Level, Sides;
    var u := m.Direction(Roll(m, q) / 10.0);
    var h := m.hypot(RollSide(q), RollUp(q));
    assert u == Turn(1.0, 0.0) by { UnitDirection(h, u); }
    hide Maths.Direction;
    AppliedToAhead(t);
  }

  lemma AppliedToAhead(t: Turn)
    ensures t.Apply(Turn(1.0, 0.0)) == t
  {
  }

  lemma UnitDirection(h: real, u: Turn)
    requires PolarForm(h, u, Turn(1.0, 0.0))
    ensures u == Turn(1.0, 0.0)
  {
    assert h * u.cos == 1.0 && h * u.sin == 0.0 && u.cos * u.cos + u.sin * u.sin == 1.0;
    hide PolarForm;
    UnitFactors(h, u.cos, u.sin);
    assert u.cos * u.cos == 1.0 * 1.0;
    SameSquare(u.cos, 1.0);
  }

  lemma UnitFactors(h: real, x: real, y: real)
    requires h > 0.0 && h * x == 1.0 && h * y == 0.0
    ensures x > 0.0 && y == 0.0
  {
  }
}
