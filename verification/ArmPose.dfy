/** The arm-pose state machine: which way the arm points, when the heading and roll references are taken,
    and what the motor is told. Exact reals; the elementary functions are a parameter. */
module ArmPose {
  import opened Rotations

  datatype Zone = Up | Down | Mid

  /** The collector's state, with the reference quaternion as the turn it performs. */
  datatype Arm = Arm(zone: Zone, reference: Turn, referenceRoll: real, pos: Vec, theta: real, speed: real)

  const INITIAL := Arm(Down, Turn(1.0, 0.0), 0.0, Vec(-1.0, 0.0, 0.0), 0.0, 0.0)

  /** A conversion to int: towards zero. */
  function Truncate(r: real): int {
    if r >= 0.0 then r.Floor else -((-r).Floor)
  }

  lemma TruncateIs(r: real)
    ensures Truncate(-r) == -Truncate(r)
    ensures 0.0 <= r ==> 0 <= Truncate(r) && Truncate(r) as real <= r < Truncate(r) as real + 1.0
  {
  }

  // ----- one sample -----

  function ZoneAt(pos: Vec): Zone {
    if pos.z > 0.5 then Up else if pos.z < -0.5 then Down else Mid
  }

  /** The step that takes the references: the arm was down and is in the middle. */
  predicate Calibrates(arm: Arm) {
    arm.zone == Down && ZoneAt(arm.pos) == Mid
  }

  function HeadingAngle(m: Maths, q: Quat): real {
    m.atan2(Heading(q).sin, Heading(q).cos)
  }

  function Roll(m: Maths, q: Quat): real {
    m.atan2(RollSide(q), RollUp(q)) * 10.0
  }

  /** The heading relative to a reference, and how far up the arm points. */
  function Position(reference: Turn, q: Quat): Vec {
    var p := reference.Undo(Heading(q));
    Vec(p.cos, p.sin, -Drop(q))
  }

  function Step(m: Maths, arm: Arm, q: Quat): Arm
    requires m.pi != 0.0
  {
    var zone := ZoneAt(arm.pos);
    var reference := if Calibrates(arm) then m.Direction(HeadingAngle(m, q)) else arm.reference;
    var referenceRoll := if Calibrates(arm) then Roll(m, q) else arm.referenceRoll;
    var pos := Position(reference, q);
    Arm(zone, reference, referenceRoll, pos,
        if zone == Mid then m.atan2(pos.y, pos.x) * 180.0 / m.pi else arm.theta,
        match zone case Mid => Truncate(referenceRoll) as real - Roll(m, q) case Down => 0.0 case Up => arm.speed)
  }

  function Run(m: Maths, samples: seq<Quat>): Arm
    requires m.pi != 0.0
  {
    if samples == [] then INITIAL else Step(m, Run(m, samples[..|samples| - 1]), samples[|samples| - 1])
  }

  // ----- the collector object -----

  class DataCollector {
    const maths: Maths
    var referenceQuat: Quat
    var quat: Quat
    var referenceRoll: real
    var pos: Vec
    var Ez: Zone
    var theta: real
    var speed: real

    ghost predicate Valid()
      reads this`referenceQuat
    {
      maths.Lawful() && referenceQuat.Level()
    }

    ghost function State(): Arm
      reads this
    {
      Arm(Ez, TurnOf(referenceQuat), referenceRoll, pos, theta, speed)
    }

    constructor (maths: Maths)
      requires maths.Lawful()
      ensures Valid() && State() == INITIAL && this.maths == maths
    {
      this.maths := maths;
      referenceQuat, referenceRoll, pos, Ez := Quat(0.0, 0.0, 0.0, 1.0), 0.0, Vec(-1.0, 0.0, 0.0), Down;
      quat, theta, speed := Quat(0.0, 0.0, 0.0, 1.0), 0.0, 0.0;
    }

    /** The zone of the position before this sample, and the references when it is time to take them. */
    method UpdateZone()
      requires Valid()
      modifies this`Ez, this`referenceQuat, this`referenceRoll
      ensures Valid() && Ez == ZoneAt(pos)
      ensures TurnOf(referenceQuat) ==
              if old(Calibrates(State())) then maths.Direction(HeadingAngle(maths, quat))
              else old(TurnOf(referenceQuat))
      ensures referenceRoll == if old(Calibrates(State())) then Roll(maths, quat) else old(referenceRoll)
    {
      hide Heading, RollSide, RollUp;
      if pos.z > 0.5 {
        Ez := Up;
      } else if pos.z < -0.5 {
        Ez := Down;
      } else {
        if Ez == Down {
          var angle := maths.atan2(Heading(quat).sin, Heading(quat).cos);
          referenceQuat := maths.FromVerticalAngle(angle);
          FromVerticalAngleIsTurn(maths, angle);
          referenceRoll := maths.atan2(RollSide(quat), RollUp(quat));
          referenceRoll := referenceRoll * 10.0;
        }
        Ez := Mid;
      }
      hide Maths.Lawful, Maths.FromVerticalAngle, TurnOf, Quat.Level;
    }

    method UpdatePosition()
      requires Valid() && quat.Unit()
      modifies this`pos
      ensures Valid() && pos == Position(TurnOf(referenceQuat), quat)
    {
      hide Quat.Rotate, Quat.Conjugate, Quat.Level, Quat.Unit, Maths.Lawful, TurnOf, Position;
      PositionOf(referenceQuat, quat);
      pos := quat.Rotate(Vec(-1.0, 0.0, 0.0));
      pos := referenceQuat.Conjugate().Rotate(pos);
      pos := Quat(0.0, 0.0, 1.0, 0.0).Rotate(pos);
    }

    method UpdateMotion()
      requires Valid()
      modifies this`theta, this`speed
      ensures Valid()
      ensures theta == if Ez == Mid then maths.atan2(pos.y, pos.x) * 180.0 / maths.pi else old(theta)
      ensures speed == match Ez
                       case Mid => Truncate(referenceRoll) as real - Roll(maths, quat)
                       case Down => 0.0
                       case Up => old(speed)
    {
      hide RollSide, RollUp, Truncate;
      if Ez == Mid {
        theta := maths.atan2(pos.y, pos.x) * 180.0 / maths.pi;
        var roll := maths.atan2(RollSide(quat), RollUp(quat));
        roll := roll * 10.0;
        speed := Truncate(referenceRoll) as real - roll;
      } else if Ez == Down {
        speed := 0.0;
      }
    }

    /** The device provides unit quaternions. */
    method OnOrientationData(sample: Quat)
      requires Valid() && sample.Unit()
      modifies this
      ensures Valid() && State() == Step(maths, old(State()), sample)
    {
      hide TurnOf, Position, Roll, HeadingAngle, Maths.Direction, Truncate, ZoneAt, Quat.Level, Quat.Unit;
      quat := sample;
      UpdateZone();
      UpdatePosition();
      UpdateMotion();
    }

    /** The callback, once for every sample of a run. */
    method RunAll(samples: seq<Quat>)
      requires Valid() && State() == INITIAL && forall q <- samples :: q.Unit()
      modifies this
      ensures Valid() && State() == Run(maths, samples)
    {
      hide Step, INITIAL, Quat.Unit;
      assert State() == Run(maths, []);
      for k := 0 to |samples|
        invariant Valid() && State() == Run(maths, samples[..k])
      {
        assert samples[..k + 1][..k] == samples[..k];
        OnOrientationData(samples[k]);
      }
      assert samples[..|samples|] == samples;
    }
  }

  /** The three rotations in a row: out along the pose, back by the reference, and half way round. */
  lemma PositionOf(reference: Quat, q: Quat)
    requires reference.Level() && q.Unit()
    ensures Quat(0.0, 0.0, 1.0, 0.0).Rotate(reference.Conjugate().Rotate(q.Rotate(Vec(-1.0, 0.0, 0.0))))
         == Position(TurnOf(reference), q)
  {
    var half, v := Quat(0.0, 0.0, 1.0, 0.0), Vec(-Heading(q).cos, -Heading(q).sin, -Drop(q));
    RotateAxis(q);
    ConjugateUndoes(reference, Turn(v.x, v.y));
    RotateLevel(reference.Conjugate(), v);
    var p := TurnOf(reference).Undo(Turn(v.x, v.y));
    RotateLevel(half, Vec(p.cos, p.sin, v.z));
    assert half.Level() && TurnOf(half) == Turn(-1.0, 0.0);
    assert Turn(-1.0, 0.0).Apply(p) == Turn(-p.cos, -p.sin);
    UndoNegated(TurnOf(reference), Heading(q));
    hide Quat.Rotate, Heading, Drop, TurnOf, Turn.Undo;
  }

  lemma UndoNegated(t: Turn, p: Turn)
    ensures t.Undo(Turn(-p.cos, -p.sin)) == Turn(-t.Undo(p).cos, -t.Undo(p).sin)
  {
  }
}
