/** The speed command main.cpp writes to the motor: how large it can get over any run of the collector,
    and what its decimal text says. */
module MotorCommand {
  import opened Rotations
  import opened ArmPose

  /** (int)(collector.speed * 50) */
  function Command(speed: real): int {
    Truncate(speed * 50.0)
  }

  /** Fifty times the speed, cut off towards zero. */
  lemma CommandIs(speed: real)
    ensures var command := Command(speed);
            && (speed >= 0.0 ==> 0 <= command && command as real <= 50.0 * speed < command as real + 1.0)
            && (speed <= 0.0 ==> command <= 0 && command as real - 1.0 < 50.0 * speed <= command as real)
  {
    TruncateIs(speed * 50.0);
    TruncateIs(-(speed * 50.0));
    hide Truncate;
  }

  // ----- decimal text -----

  function Digits(n: nat): (s: string)
    ensures |s| > 0
  {
    if n < 10 then [('0' as int + n) as char] else Digits(n / 10) + [('0' as int + n % 10) as char]
  }

  /** _itoa_s in base 10 */
  function Decimal(n: int): string {
    if n < 0 then ['-'] + Digits(-n) else Digits(n)
  }

  function ReadDigits(s: string): int {
    if s == [] then 0 else 10 * ReadDigits(s[..|s| - 1]) + (s[|s| - 1] as int - '0' as int)
  }

  function ReadDecimal(s: string): int {
    if s != [] && s[0] == '-' then -ReadDigits(s[1..]) else ReadDigits(s)
  }

  lemma {:induction false} DigitsRoundTrip(n: nat)
    ensures ReadDigits(Digits(n)) == n && '-' !in Digits(n)
  {
    if n >= 10 {
      DigitsRoundTrip(n / 10);
      var s := Digits(n);
      assert s[..|s| - 1] == Digits(n / 10);
    } else {
      assert Digits(n)[..0] == [];
    }
  }

  lemma DecimalRoundTrip(n: int)
    ensures ReadDecimal(Decimal(n)) == n
  {
    if n < 0 {
      DigitsRoundTrip(-n);
      assert Decimal(n)[1..] == Digits(-n);
    } else {
      DigitsRoundTrip(n);
      assert Digits(n)[0] in Digits(n);
    }
  }

  lemma DecimalExamples()
    ensures Decimal(-3120) == "-3120" && Decimal(0) == "0" && Decimal(47) == "47"
  {
    assert Digits(3120) == Digits(312) + "0";
    assert Digits(312) == Digits(31) + "2";
    assert Digits(31) == "31" && Digits(47) == "47";
  }

  // ----- bounds -----

  lemma TruncateBound(r: real, n: nat)
    requires -(n as real) - 1.0 < r < n as real + 1.0
    ensures -(n as int) <= Truncate(r) <= n
  {
  }

  /** A roll is at most ten half turns in radians. */
  lemma RollBound(m: Maths, q: Quat)
    requires m.Lawful()
    ensures -31.416 < Roll(m, q) < 31.416
  {
    assert m.Range(RollSide(q), RollUp(q));
    hide RollSide, RollUp;
  }

  lemma {:induction false} ReferenceRollBound(m: Maths, samples: seq<Quat>)
    requires m.Lawful()
    ensures -31.416 < Run(m, samples).referenceRoll < 31.416
    decreases |samples|
  {
    if samples != [] {
      ReferenceRollBound(m, samples[..|samples| - 1]);
      RollBound(m, samples[|samples| - 1]);
    }
    hide Roll, Position, HeadingAngle, Maths.Lawful;
  }

  lemma {:induction false} SpeedBound(m: Maths, samples: seq<Quat>)
    requires m.Lawful()
    ensures -62.416 < Run(m, samples).speed < 62.416
    ensures Run(m, samples).zone == Down ==> Run(m, samples).speed == 0.0
    decreases |samples|
  {
    if samples != [] {
      var before, q := samples[..|samples| - 1], samples[|samples| - 1];
      SpeedBound(m, before);
      ReferenceRollBound(m, samples);
      RollBound(m, q);
      TruncateBound(Run(m, samples).referenceRoll, 31);
      hide Roll, Position, HeadingAngle, Truncate, Maths.Lawful;
      assert Run(m, samples) == Step(m, Run(m, before), q);
    }
  }

  /** After any run the command stays within 3120 either way, so its text with sign and terminator fits the
      seven bytes it is written to; and the text between "sl" and "f" reads back as the command. */
  lemma CommandFits(m: Maths, samples: seq<Quat>)
    requires m.Lawful()
    ensures var command := Command(Run(m, samples).speed);
            var text := Decimal(command);
            var sent := "sl" + text + "f";
            && -3120 <= command <= 3120
            && |text| + 1 <= 7
            && ReadDecimal(sent[2..|sent| - 1]) == command
  {
    SpeedBound(m, samples);
    TruncateBound(Run(m, samples).speed * 50.0, 3120);
    var command := Command(Run(m, samples).speed);
    hide Run, Truncate, Maths.Lawful;
    DecimalRoundTrip(command);
    DecimalLength(command);
    var sent := "sl" + Decimal(command) + "f";
    assert sent[2..|sent| - 1] == Decimal(command);
  }

  lemma DecimalLength(n: int)
    requires -10000 < n < 10000
    ensures |Decimal(n)| <= 5
  {
    DigitsLength(if n < 0 then -n else n, 4);
  }

  function PowerOfTen(k: nat): nat {
    if k == 0 then 1 else 10 * PowerOfTen(k - 1)
  }

  lemma {:induction false} DigitsLength(n: nat, k: nat)
    requires 1 <= k && (n < PowerOfTen(k) || (k == 4 && n < 10000))
    ensures |Digits(n)| <= k
    decreases k
  {
    assert PowerOfTen(4) == 10 * (10 * (10 * (10 * PowerOfTen(0))));
    if k > 1 && n >= 10 {
      DigitsLength(n / 10, k - 1);
    } else if k == 1 {
      assert PowerOfTen(1) == 10 * PowerOfTen(0);
    }
  }
}
