/** The Myo SDK's quaternions and vectors over exact reals, and the elementary functions the pose
    computation calls. */
module Rotations {
  datatype Vec = Vec(x: real, y: real, z: real)

  datatype Quat = Quat(x: real, y: real, z: real, w: real) {
    function Times(rhs: Quat): Quat {
      Quat(w * rhs.x + x * rhs.w + y * rhs.z - z * rhs.y,
           w * rhs.y - x * rhs.z + y * rhs.w + z * rhs.x,
           w * rhs.z + x * rhs.y - y * rhs.x + z * rhs.w,
           w * rhs.w - x * rhs.x - y * rhs.y - z * rhs.z)
    }

    function Conjugate(): Quat {
      Quat(-x, -y, -z, w)
    }

    function Rotate(v: Vec): Vec {
      var r := Times(Quat(v.x, v.y, v.z, 0.0)).Times(Conjugate());
      Vec(r.x, r.y, r.z)
    }

    predicate Unit() {
      x * x + y * y + z * z + w * w == 1.0
    }

    /** A rotation about the vertical axis. */
    predicate Level() {
      x == 0.0 && y == 0.0 && z * z + w * w == 1.0
    }
  }

  /** A rotation of the horizontal plane, as the cosine and sine of its angle. */
  datatype Turn = Turn(cos: real, sin: real) {
    predicate Valid() {
      cos * cos + sin * sin == 1.0
    }

    function Apply(p: Turn): Turn {
      Turn(cos * p.cos - sin * p.sin, sin * p.cos + cos * p.sin)
    }

    function Undo(p: Turn): Turn {
      Turn(cos * p.cos + sin * p.sin, cos * p.sin - sin * p.cos)
    }
  }

  /** The turn a level quaternion performs: twice its half angle. */
  function TurnOf(q: Quat): Turn {
    Turn(q.w * q.w - q.z * q.z, 2.0 * (q.z * q.w))
  }

  /** The horizontal direction of the rotated x axis. */
  function Heading(q: Quat): Turn {
    Turn(1.0 - 2.0 * (q.y * q.y + q.z * q.z), 2.0 * (q.w * q.z + q.x * q.y))
  }

  /** How far the rotated x axis points down. */
  function Drop(q: Quat): real {
    2.0 * (q.x * q.z - q.w * q.y)
  }

  /** The two arguments the roll angle is taken of. */
  function RollSide(q: Quat): real {
    2.0 * (q.w * q.x + q.y * q.z)
  }

  function RollUp(q: Quat): real {
    1.0 - 2.0 * (q.x * q.x + q.y * q.y)
  }

  predicate Vertical(q: Quat) {
    Heading(q) == Turn(0.0, 0.0)
  }

  // ----- elementary functions -----

  /** atan2, sin, cos and pi, with the length hypot that atan2's polar form speaks about. */
  datatype Maths = Maths(atan2: (real, real) -> real, hypot: (real, real) -> real,
                         sin: real -> real, cos: real -> real, pi: real)
  {
    predicate Range(y: real, x: real) {
      -pi <= atan2(y, x) <= pi
    }

    /** (x, y) is its length in the direction of its angle. */
    predicate Polar(y: real, x: real) {
      x != 0.0 || y != 0.0 ==>
        && hypot(y, x) > 0.0
        && hypot(y, x) * cos(atan2(y, x)) == x
        && hypot(y, x) * sin(atan2(y, x)) == y
    }

    predicate Pythagoras(a: real) {
      cos(a) * cos(a) + sin(a) * sin(a) == 1.0
    }

    predicate DoubleAngle(a: real) {
      && cos(a) == cos(a / 2.0) * cos(a / 2.0) - sin(a / 2.0) * sin(a / 2.0)
      && sin(a) == 2.0 * (sin(a / 2.0) * cos(a / 2.0))
    }

    predicate Ahead(x: real) {
      x > 0.0 ==> atan2(0.0, x) == 0.0
    }

    ghost predicate Lawful() {
      && 3.1415 < pi < 3.1416
      && (forall y, x :: Range(y, x))
      && (forall y, x :: Polar(y, x))
      && (forall a :: Pythagoras(a))
      && (forall a :: DoubleAngle(a))
      && (forall x :: Ahead(x))
    }

    /** Quaternion::fromAxisAngle for the vertical axis. */
    function FromVerticalAngle(angle: real): Quat {
      Quat(0.0 * sin(angle / 2.0), 0.0 * sin(angle / 2.0), 1.0 * sin(angle / 2.0), cos(angle / 2.0))
    }

    function Direction(a: real): Turn {
      Turn(cos(a), sin(a))
    }
  }

  lemma FromVerticalAngleIsTurn(m: Maths, angle: real)
    requires m.Lawful()
    ensures m.FromVerticalAngle(angle).Level() && TurnOf(m.FromVerticalAngle(angle)) == m.Direction(angle)
    ensures m.Direction(angle).Valid()
  {
    assert m.Pythagoras(angle / 2.0) && m.DoubleAngle(angle) && m.Pythagoras(angle);
  }

  // ----- what rotating does -----

  /** Equals scaled alike: spelled out, because products of unknowns are where the solver needs a hand. */
  lemma Scale(a: real, b: real, k: real)
    requires a == b
    ensures a * k == b * k
  {
  }

  /** Rotating the backward axis: against the heading, and up by the drop. */
  lemma RotateAxis(q: Quat)
    requires q.Unit()
    ensures q.Rotate(Vec(-1.0, 0.0, 0.0)) == Vec(-Heading(q).cos, -Heading(q).sin, -Drop(q))
  {
  }

  lemma RotateFlat(q: Quat, v: Vec)
    requires q.x == 0.0 && q.y == 0.0
    ensures var z, w, r := q.z, q.w, q.Rotate(v);
            && r.x == w * (w * v.x - z * v.y) - z * (w * v.y + z * v.x)
            && r.y == z * (w * v.x - z * v.y) + w * (w * v.y + z * v.x)
            && r.z == w * (w * v.z) + z * (z * v.z)
  {
  }

  lemma LevelProducts(z: real, w: real, x: real, y: real, v: real)
    requires z * z + w * w == 1.0
    ensures w * (w * x - z * y) - z * (w * y + z * x) == (w * w - z * z) * x - 2.0 * (z * w) * y
    ensures z * (w * x - z * y) + w * (w * y + z * x) == 2.0 * (z * w) * x + (w * w - z * z) * y
    ensures w * (w * v) + z * (z * v) == v
  {
    assert w * (w * v) + z * (z * v) == v * (z * z + w * w);
  }

  /** A level rotation turns the plane and keeps the height. */
  lemma RotateLevel(q: Quat, v: Vec)
    requires q.Level()
    ensures var p := TurnOf(q).Apply(Turn(v.x, v.y)); q.Rotate(v) == Vec(p.cos, p.sin, v.z)
  {
    hide *;
    var p := TurnOf(q).Apply(Turn(v.x, v.y));
    assert p.cos == (q.w * q.w - q.z * q.z) * v.x - 2.0 * (q.z * q.w) * v.y
        && p.sin == 2.0 * (q.z * q.w) * v.x + (q.w * q.w - q.z * q.z) * v.y by {
      LevelIs(q);
      ApplyIs(TurnOf(q), Turn(v.x, v.y));
    }
    LevelIs(q);
    RotateFlat(q, v);
    LevelProducts(q.z, q.w, v.x, v.y, v.z);
  }

  lemma LevelIs(q: Quat)
    requires q.Level()
    ensures q.x == 0.0 && q.y == 0.0 && q.z * q.z + q.w * q.w == 1.0
    ensures TurnOf(q).cos == q.w * q.w - q.z * q.z && TurnOf(q).sin == 2.0 * (q.z * q.w)
  {
  }

  lemma ConjugateUndoes(q: Quat, p: Turn)
    requires q.Level()
    ensures q.Conjugate().Level() && TurnOf(q.Conjugate()).Apply(p) == TurnOf(q).Undo(p)
  {
    var c := TurnOf(q.Conjugate());
    assert c.cos == TurnOf(q).cos && c.sin == -TurnOf(q).sin;
    Scale(c.cos, TurnOf(q).cos, p.cos);
    Scale(c.cos, TurnOf(q).cos, p.sin);
    Scale(c.sin, -TurnOf(q).sin, p.cos);
    Scale(c.sin, -TurnOf(q).sin, p.sin);
    hide TurnOf, Quat.Conjugate;
  }

  // ----- composing turns -----

  lemma CommonTurn(c: real, s: real, a: real, b: real, x: real, y: real)
    requires c * c + s * s == 1.0
    ensures (c * a - s * b) * (c * x - s * y) + (s * a + c * b) * (s * x + c * y) == a * x + b * y
    ensures (c * a - s * b) * (s * x + c * y) - (s * a + c * b) * (c * x - s * y) == a * y - b * x
  {
  }

  lemma CommonTurnNamed(c: real, s: real, a: real, b: real, x: real, y: real, d: real, e: real, u: real, v: real)
    requires c * c + s * s == 1.0
    requires d == c * a - s * b && e == s * a + c * b && u == c * x - s * y && v == s * x + c * y
    ensures d * u + e * v == a * x + b * y && d * v - e * u == a * y - b * x
  {
    CommonTurn(c, s, a, b, x, y);
  }

  lemma SameUndo(r: Turn, q: Turn, u: Turn, p: Turn)
    requires r.cos * q.cos + r.sin * q.sin == u.cos * p.cos + u.sin * p.sin
    requires r.cos * q.sin - r.sin * q.cos == u.cos * p.sin - u.sin * p.cos
    ensures r.Undo(q) == u.Undo(p)
  {
  }

  /** A turn common to both drops out. */
  lemma ApplyUndo(t: Turn, u: Turn, p: Turn)
    requires t.Valid()
    ensures t.Apply(u).Undo(t.Apply(p)) == u.Undo(p)
  {
    var r, q := t.Apply(u), t.Apply(p);
    ApplyIs(t, u);
    ApplyIs(t, p);
    assert t.cos * t.cos + t.sin * t.sin == 1.0;
    hide *;
    CommonTurnNamed(t.cos, t.sin, u.cos, u.sin, p.cos, p.sin, r.cos, r.sin, q.cos, q.sin);
    SameUndo(r, q, u, p);
  }

  lemma ApplyIs(t: Turn, p: Turn)
    ensures t.Apply(p).cos == t.cos * p.cos - t.sin * p.sin && t.Apply(p).sin == t.sin * p.cos + t.cos * p.sin
  {
  }

  lemma UndoIs(t: Turn, p: Turn, c: real, s: real, x: real, y: real, cos: real, sin: real)
    requires t.cos == c && t.sin == s && p.cos == x && p.sin == y
    requires c * x + s * y == cos && c * y - s * x == sin
    ensures t.Undo(p) == Turn(cos, sin)
  {
  }

  // ----- turning a pose about the vertical axis -----

  lemma LevelTimes(h: Quat, q: Quat)
    requires h.x == 0.0 && h.y == 0.0
    ensures var r := h.Times(q);
            && r.x == h.w * q.x - h.z * q.y && r.y == h.w * q.y + h.z * q.x
            && r.z == h.w * q.z + h.z * q.w && r.w == h.w * q.w - h.z * q.z
  {
  }

  /** Products of the components after the turn, in those before it. */
  lemma TurnedProducts(c: real, s: real, x: real, y: real, z: real, w: real)
    requires c * c + s * s == 1.0
    ensures (c * w - s * z) * (c * x - s * y) + (c * y + s * x) * (c * z + s * w) == w * x + y * z
    ensures (c * x - s * y) * (c * x - s * y) + (c * y + s * x) * (c * y + s * x) == x * x + y * y
    ensures (c * x - s * y) * (c * z + s * w) - (c * w - s * z) * (c * y + s * x) == x * z - w * y
    ensures (c * z + s * w) * (c * z + s * w) + (c * w - s * z) * (c * w - s * z) == z * z + w * w
  {
  }

  /** The heading of a unit quaternion without its constant: a form that composes without any side
      condition. */
  function Heading4(q: Quat): Turn {
    Turn(q.w * q.w + q.x * q.x - q.y * q.y - q.z * q.z, 2.0 * (q.w * q.z + q.x * q.y))
  }

  lemma HeadingOfUnit(q: Quat)
    requires q.Unit()
    ensures Heading(q) == Heading4(q)
  {
  }

  lemma TurnedHeading4(c: real, s: real, x: real, y: real, z: real, w: real)
    ensures (c * w - s * z) * (c * w - s * z) + (c * x - s * y) * (c * x - s * y)
            - (c * y + s * x) * (c * y + s * x) - (c * z + s * w) * (c * z + s * w)
         == (c * c - s * s) * (w * w + x * x - y * y - z * z) - 2.0 * (s * c) * (2.0 * (w * z + x * y))
    ensures 2.0 * ((c * w - s * z) * (c * z + s * w) + (c * x - s * y) * (c * y + s * x))
         == 2.0 * (s * c) * (w * w + x * x - y * y - z * z) + (c * c - s * s) * (2.0 * (w * z + x * y))
  {
  }

  lemma HeightIs(q: Quat, x: real, y: real, z: real, w: real, drop: real, side: real, level: real)
    requires q.x == x && q.y == y && q.z == z && q.w == w
    requires x * z - w * y == drop && w * x + y * z == side && x * x + y * y == level
    ensures Drop(q) == 2.0 * drop && RollSide(q) == 2.0 * side && RollUp(q) == 1.0 - 2.0 * level
  {
  }

  lemma Heading4Is(q: Quat, x: real, y: real, z: real, w: real, cos: real, sin: real)
    requires q.x == x && q.y == y && q.z == z && q.w == w
    requires w * w + x * x - y * y - z * z == cos && 2.0 * (w * z + x * y) == sin
    ensures Heading4(q) == Turn(cos, sin)
  {
  }

  lemma UnitIs(q: Quat, x: real, y: real, z: real, w: real)
    requires q.x == x && q.y == y && q.z == z && q.w == w
    requires x * x + y * y + z * z + w * w == 1.0
    ensures q.Unit()
  {
  }

  lemma TurnedUnit(h: Quat, q: Quat)
    requires h.Level() && q.Unit()
    ensures h.Times(q).Unit()
  {
    var c, s, x, y, z, w := h.w, h.z, q.x, q.y, q.z, q.w;
    LevelTimes(h, q);
    hide *;
    TurnedProducts(c, s, x, y, z, w);
    UnitIs(h.Times(q), c * x - s * y, c * y + s * x, c * z + s * w, c * w - s * z);
  }

  lemma TurnedHeight(h: Quat, q: Quat)
    requires h.Level()
    ensures var r := h.Times(q); Drop(r) == Drop(q) && RollSide(r) == RollSide(q) && RollUp(r) == RollUp(q)
  {
    var c, s, x, y, z, w := h.w, h.z, q.x, q.y, q.z, q.w;
    LevelTimes(h, q);
    hide *;
    HeightIs(q, x, y, z, w, x * z - w * y, w * x + y * z, x * x + y * y);
    TurnedProducts(c, s, x, y, z, w);
    HeightIs(h.Times(q), c * x - s * y, c * y + s * x, c * z + s * w, c * w - s * z,
             x * z - w * y, w * x + y * z, x * x + y * y);
  }

  lemma AppliedHeading(h: Quat, q: Quat)
    ensures var a := TurnOf(h).Apply(Heading4(q));
            && a.cos == (h.w * h.w - h.z * h.z) * (q.w * q.w + q.x * q.x - q.y * q.y - q.z * q.z)
                        - 2.0 * (h.z * h.w) * (2.0 * (q.w * q.z + q.x * q.y))
            && a.sin == 2.0 * (h.z * h.w) * (q.w * q.w + q.x * q.x - q.y * q.y - q.z * q.z)
                        + (h.w * h.w - h.z * h.z) * (2.0 * (q.w * q.z + q.x * q.y))
  {
  }

  lemma TurnedComponents(r: Quat, c: real, s: real, x: real, y: real, z: real, w: real, cos: real, sin: real)
    requires r.x == c * x - s * y && r.y == c * y + s * x && r.z == c * z + s * w && r.w == c * w - s * z
    requires cos == (c * c - s * s) * (w * w + x * x - y * y - z * z) - 2.0 * (s * c) * (2.0 * (w * z + x * y))
    requires sin == 2.0 * (s * c) * (w * w + x * x - y * y - z * z) + (c * c - s * s) * (2.0 * (w * z + x * y))
    ensures Heading4(r) == Turn(cos, sin)
  {
    hide *;
    TurnedHeading4(c, s, x, y, z, w);
    Heading4Is(r, c * x - s * y, c * y + s * x, c * z + s * w, c * w - s * z, cos, sin);
  }

  lemma TurnedHeading(h: Quat, q: Quat)
    requires h.x == 0.0 && h.y == 0.0
    ensures Heading4(h.Times(q)) == TurnOf(h).Apply(Heading4(q))
  {
    hide *;
    var a := TurnOf(h).Apply(Heading4(q));
    AppliedHeading(h, q);
    LevelTimes(h, q);
    TurnedComponents(h.Times(q), h.w, h.z, q.x, q.y, q.z, q.w, a.cos, a.sin);
  }

  /** Turning a pose about the vertical axis turns its heading, and changes neither how far it points
      down nor its roll. */
  lemma TurnedPose(h: Quat, q: Quat)
    requires h.Level() && q.Unit()
    ensures var r := h.Times(q);
            && r.Unit() && Heading(r) == TurnOf(h).Apply(Heading(q))
            && Drop(r) == Drop(q) && RollSide(r) == RollSide(q) && RollUp(r) == RollUp(q)
  {
    assert h.x == 0.0 && h.y == 0.0;
    TurnedUnit(h, q);
    TurnedHeight(h, q);
    hide *;
    TurnedHeading(h, q);
    HeadingOfUnit(q);
    HeadingOfUnit(h.Times(q));
  }
}
