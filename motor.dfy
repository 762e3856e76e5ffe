/**
 * A stepper motor with its built-in stepper driver: a signed microstep
 * position, a direction bit that selects the step increment, and the
 * conversions between revolutions, steps and millimetres.
 *
 * The motor's integers are C# `int`s, so every value that is stored is an
 * `Int32` and every arithmetic result that is stored is wrapped explicitly.
 */
module Motors {

  const Modulus: int := 0x1_0000_0000
  const Half: int := 0x8000_0000

  /** A 32-bit two's-complement integer. */
  newtype Int32 = x: int | -0x8000_0000 <= x < 0x8000_0000

  datatype Option<T> = None | Some(value: T)

  /** C#'s unchecked conversion of an integer result to `int`. */
  function Wrap32(x: int): (r: Int32)
    ensures (r as int - x) % Modulus == 0
    ensures -Half <= x < Half ==> r as int == x
  {
    ((x + Half) % Modulus - Half) as Int32
  }

  /** If x == q * m + r with 0 <= r < |m|, then r is the Euclidean remainder. */
  lemma ModUnique(x: int, q: int, r: int, m: int)
    requires m != 0 && 0 <= r < (if m > 0 then m else -m) && x == q * m + r
    ensures x % m == r && x / m == q
  {
    var q', r' := x / m, x % m;
    assert (q - q') * m == r' - r;
    if q != q' {
      MulAwayFromZero(q - q', m);
    }
  }

  lemma MulAwayFromZero(d: int, m: int)
    requires d != 0 && m != 0
    ensures d * m >= (if m > 0 then m else -m) || d * m <= (if m > 0 then -m else m)
  {
    var ad, am := if d > 0 then d else -d, if m > 0 then m else -m;
    MulMonotone(ad, am);
    assert d * m == ad * am || d * m == -(ad * am);
  }

  lemma MulMonotone(d: int, m: int)
    requires d >= 1 && m > 0
    ensures d * m >= m
  {
  }

  /** Adding a multiple of the modulus does not change a remainder. */
  lemma ModAddMultiple(x: int, k: int, m: int)
    requires m > 0
    ensures (x + k * m) % m == x % m
  {
    ModUnique(x + k * m, x / m + k, x % m, m);
  }

  lemma Wrap32Congruent(x: int, y: int)
    requires (x - y) % Modulus == 0
    ensures Wrap32(x) == Wrap32(y)
  {
    var k := (x - y) / Modulus;
    assert x + Half == (y + Half) + k * Modulus;
    ModAddMultiple(y + Half, k, Modulus);
  }

  /** Wrapping an intermediate result does not change the wrapped sum. */
  lemma Wrap32Add(a: int, b: int)
    ensures Wrap32(Wrap32(a) as int + b) == Wrap32(a + b)
  {
    var w := Wrap32(a) as int;
    var k := (w - a) / Modulus;
    assert w + b == (a + b) + k * Modulus;
    ModAddMultiple(a + b, k, Modulus);
    Wrap32Congruent(w + b, a + b);
  }

  // ---------------------------------------------------------------------
  // Direction bit and microstepping
  // ---------------------------------------------------------------------

  /** The step increment the direction bit selects: set means backwards. */
  function StepIncrement(directionBit: bool): (s: int)
    ensures s == 1 || s == -1
    ensures s < 0 <==> directionBit
  {
    if directionBit then -1 else 1
  }

  /**
   * The position after one microstep in the given direction: it moves by
   * exactly the increment, except at the two ends of the `int` range, where
   * it wraps around to the other end.
   */
  function StepFrom(position: Int32, directionBit: bool): (r: Int32)
    ensures position as int + StepIncrement(directionBit) == Half ==> r as int == -Half
    ensures position as int + StepIncrement(directionBit) == -Half - 1 ==> r as int == Half - 1
    ensures -Half <= position as int + StepIncrement(directionBit) < Half ==>
              r as int == position as int + StepIncrement(directionBit)
  {
    var x := position as int + StepIncrement(directionBit);
    if x == Half then
      Wrap32Congruent(x, -Half);
      Wrap32(x)
    else if x == -Half - 1 then
      Wrap32Congruent(x, Half - 1);
      Wrap32(x)
    else
      Wrap32(x)
  }

  /**
   * The position after n microsteps with an unchanged direction bit. Since
   * `Motor.Microstep` ensures its new position is `StepFrom` of the old one,
   * n calls of it on a motor whose direction bit is not changed in between
   * leave the position at `Microsteps(start, directionBit, n)`.
   */
  function Microsteps(position: Int32, directionBit: bool, n: nat): (r: Int32)
    ensures r == Wrap32(position as int + n * StepIncrement(directionBit))
    ensures -Half <= position as int + n * StepIncrement(directionBit) < Half ==>
              r as int == position as int + n * StepIncrement(directionBit)
    decreases n
  {
    if n == 0 then
      position
    else
      var before := Microsteps(position, directionBit, n - 1);
      Wrap32Add(position as int + (n - 1) * StepIncrement(directionBit), StepIncrement(directionBit));
      StepFrom(before, directionBit)
  }

  /** A microstep, a flip of the direction bit and another microstep come back. */
  lemma StepThenStepBack(position: Int32, directionBit: bool)
    ensures StepFrom(StepFrom(position, directionBit), !directionBit) == position
  {
    Wrap32Add(position as int + StepIncrement(directionBit), StepIncrement(!directionBit));
  }

  // ---------------------------------------------------------------------
  // The integer residue behind `fraction`
  // ---------------------------------------------------------------------

  /** Floor division, as `Mathf.Floor(a / b)` computes it on exact values. */
  function FloorDiv(a: int, b: int): (q: int)
    requires b != 0
    ensures b > 0 ==> q * b <= a < q * b + b
    ensures b < 0 ==> q * b + b < a <= q * b
  {
    if b > 0 then a / b else (-a) / (-b)
  }

  /**
   * The position wrapped into one revolution, computed as `fraction` does:
   * subtract the floored quotient times the revolution, then add one
   * revolution if the result is negative. A zero revolution gives no number.
   */
  function Residue(position: int, perRevolution: int): (r: Option<int>)
    ensures r.None? <==> perRevolution == 0
    ensures r.Some? ==> (position - r.value) % perRevolution == 0
    ensures perRevolution > 0 ==> r.Some? && 0 <= r.value < perRevolution
    ensures perRevolution < 0 ==> r.Some? && (r.value == 0 || 2 * perRevolution < r.value < perRevolution)
  {
    if perRevolution == 0 then
      None
    else
      var q := FloorDiv(position, perRevolution);
      var f := position - q * perRevolution;
      var v := if f < 0 then f + perRevolution else f;
      ResidueCongruent(position, q, perRevolution, v);
      Some(v)
  }

  lemma ResidueCongruent(position: int, q: int, m: int, v: int)
    requires m != 0
    requires v == position - q * m || v == position - q * m + m
    ensures (position - v) % m == 0
  {
    if v == position - q * m {
      ModUnique(position - v, q, 0, m);
    } else {
      assert position - v == (q - 1) * m;
      ModUnique(position - v, q - 1, 0, m);
    }
  }

  /** For a positive revolution the residue is the Euclidean remainder. */
  lemma ResidueIsRemainder(position: int, perRevolution: int)
    requires perRevolution > 0
    ensures Residue(position, perRevolution) == Some(position % perRevolution)
  {
    var r := Residue(position, perRevolution).value;
    var q := FloorDiv(position, perRevolution);
    assert position == q * perRevolution + r;
    ModUnique(position, q, r, perRevolution);
  }

  /** Shifting the dividend by k divisors shifts the floored quotient by k. */
  lemma FloorDivShift(a: int, k: int, m: int)
    requires m != 0
    ensures FloorDiv(a + k * m, m) == FloorDiv(a, m) + k
  {
    if m > 0 {
      ModUnique(a + k * m, a / m + k, a % m, m);
    } else {
      assert -(a + k * m) == -a + k * (-m);
      ModUnique(-a + k * (-m), (-a) / (-m) + k, (-a) % (-m), -m);
    }
  }

  /**
   * Positions a whole number of revolutions apart have the same residue, for
   * a revolution of either sign.
   */
  lemma ResiduePeriodic(position: int, k: int, perRevolution: int)
    requires perRevolution != 0
    ensures Residue(position + k * perRevolution, perRevolution) == Residue(position, perRevolution)
  {
    FloorDivShift(position, k, perRevolution);
    var q := FloorDiv(position, perRevolution);
    assert (q + k) * perRevolution == q * perRevolution + k * perRevolution;
  }

  // ---------------------------------------------------------------------
  // Conversion utilities, over the reals
  // ---------------------------------------------------------------------

  /**
   * The distance one step covers: millimetres per revolution divided by the
   * steps in a revolution. A zero divisor gives no number.
   */
  function DistancePerStep(mmPerRevolution: real, stepsPerRevolution: int): (r: Option<real>)
    ensures r.None? <==> stepsPerRevolution == 0
    ensures r.Some? ==> r.value * stepsPerRevolution as real == mmPerRevolution
  {
    if stepsPerRevolution == 0 then None else Some(mmPerRevolution / stepsPerRevolution as real)
  }

  /** The microstep distance times the microstep count is the full-step distance. */
  lemma MicrostepDistanceScales(mmPerRevolution: real, fullSteps: int, microsteps: int)
    requires fullSteps != 0 && microsteps != 0
    requires -Half <= fullSteps * microsteps < Half
    ensures DistancePerStep(mmPerRevolution, Wrap32(fullSteps * microsteps) as int).Some?
    ensures DistancePerStep(mmPerRevolution, fullSteps).Some?
    ensures DistancePerStep(mmPerRevolution, Wrap32(fullSteps * microsteps) as int).value * microsteps as real
            == DistancePerStep(mmPerRevolution, fullSteps).value
  {
    var f, m := fullSteps as real, microsteps as real;
    assert (fullSteps * microsteps) as real == f * m;
    var micro := DistancePerStep(mmPerRevolution, fullSteps * microsteps).value;
    var full := DistancePerStep(mmPerRevolution, fullSteps).value;
    assert micro * (f * m) == mmPerRevolution;
    assert full * f == mmPerRevolution;
    assert (micro * m) * f == full * f;
  }

  /** The same fact about a motor object's two conversion functions. */
  lemma MotorMicrostepDistanceScales(m: Motor, mmPerRevolution: real)
    requires m.fullStepsPerRevolution != 0 && m.microsteps != 0
    requires -Half <= m.fullStepsPerRevolution as int * m.microsteps as int < Half
    ensures m.MicrostepsPerMm(mmPerRevolution).Some? && m.StepsPerMm(mmPerRevolution).Some?
    ensures m.MicrostepsPerMm(mmPerRevolution).value * m.microsteps as real
            == m.StepsPerMm(mmPerRevolution).value
  {
    MicrostepDistanceScales(mmPerRevolution, m.fullStepsPerRevolution as int, m.microsteps as int);
  }

  // ---------------------------------------------------------------------
  // The motor object
  // ---------------------------------------------------------------------

  class Motor {
    /** Total microsteps; may be set directly for high-level movement. */
    var position: Int32
    var fullStepsPerRevolution: Int32
    var microsteps: Int32
    var stepAdd: Int32
    var directionBit: bool
    /** A second motor on an axis that should not act (unused by the logic). */
    var redundantMotor: bool

    /** The step increment always follows the direction bit. */
    ghost predicate Valid()
      reads this
    {
      stepAdd as int == StepIncrement(directionBit)
    }

    constructor ()
      ensures Valid()
      ensures position == 0 && !directionBit && stepAdd == 1 && !redundantMotor
      ensures fullStepsPerRevolution == 200 && microsteps == 16
      ensures MicrostepsPerRevolution() == 3200
    {
      position := 0;
      fullStepsPerRevolution := 200;
      microsteps := 16;
      stepAdd := 1;
      directionBit := false;
      redundantMotor := false;
    }

    /** The product of full steps and microsteps, as a C# `int`. */
    function MicrostepsPerRevolution(): (r: Int32)
      reads this
      ensures (r as int - fullStepsPerRevolution as int * microsteps as int) % Modulus == 0
      ensures -Half <= fullStepsPerRevolution as int * microsteps as int < Half ==>
                r as int == fullStepsPerRevolution as int * microsteps as int
    {
      Wrap32(fullStepsPerRevolution as int * microsteps as int)
    }

    /** The integer part of `fraction`: the position within one revolution. */
    function FractionResidue(): (r: Option<int>)
      reads this
      ensures r.None? <==> MicrostepsPerRevolution() == 0
      ensures MicrostepsPerRevolution() > 0 ==>
                r.Some? && 0 <= r.value < MicrostepsPerRevolution() as int &&
                (position as int - r.value) % MicrostepsPerRevolution() as int == 0
    {
      Residue(position as int, MicrostepsPerRevolution() as int)
    }

    /** Named `steps_per_mm` in the source; its value is millimetres per full step. */
    function StepsPerMm(mmPerRevolution: real): (r: Option<real>)
      reads this
      ensures r.None? <==> fullStepsPerRevolution == 0
      ensures r.Some? ==> r.value * fullStepsPerRevolution as real == mmPerRevolution
    {
      DistancePerStep(mmPerRevolution, fullStepsPerRevolution as int)
    }

    /** Named `microsteps_per_mm` in the source; millimetres per microstep. */
    function MicrostepsPerMm(mmPerRevolution: real): (r: Option<real>)
      reads this
      ensures r.None? <==> MicrostepsPerRevolution() == 0
      ensures r.Some? ==> r.value * MicrostepsPerRevolution() as real == mmPerRevolution
    {
      DistancePerStep(mmPerRevolution, MicrostepsPerRevolution() as int)
    }

    /** The `direction_bit` setter: stores the bit and selects the increment. */
    method SetDirectionBit(value: bool)
      modifies this`directionBit, this`stepAdd
      ensures Valid()
      ensures directionBit == value
      ensures stepAdd == if value then -1 else 1
    {
      directionBit := value;
      stepAdd := if value then -1 else 1;
    }

    /** Pulse the motor once: the position moves by the step increment. */
    method Microstep()
      requires Valid()
      modifies this`position
      ensures Valid()
      ensures position == StepFrom(old(position), directionBit)
      ensures position == Wrap32(old(position) as int + stepAdd as int)
    {
      position := Wrap32(position as int + stepAdd as int);
    }
  }

  /** One microstep, a flip of the direction bit and another microstep. */
  method StepAndStepBack(m: Motor)
    requires m.Valid()
    modifies m`position, m`directionBit, m`stepAdd
    ensures m.Valid()
    ensures m.position == old(m.position)
    ensures m.directionBit == !old(m.directionBit)
  {
    ghost var start := m.position;
    m.Microstep();
    m.SetDirectionBit(!m.directionBit);
    m.Microstep();
    StepThenStepBack(start, !m.directionBit);
  }
}
