/**
 * From a time of day to the rotations of the three arms, and the requests a
 * tick sends to the drawing surface: the seam pre-rotations and one eased
 * animation per arm.
 */
module ClockAngles {
  import opened ClockTime

  /** Rotations in degrees, clockwise from 12 o'clock. */
  datatype Rotations = Rotations(hour: int, minute: int, second: int)

  datatype Arm = HourArm | MinuteArm | SecondArm

  /**
   * What the clock asks of the drawing surface. `PreRotate` is the rotation
   * to an angle just above 0° that makes the next animation run forward
   * across the 12 o'clock seam; `Animate` is an animation to `target`
   * degrees; `Rotate` is an immediate rotation.
   */
  datatype Request =
    | PreRotate(arm: Arm)
    | Animate(arm: Arm, target: int, durationMs: int)
    | Rotate(arm: Arm, degrees: int)

  /** Duration of each arm's animation on a tick. */
  const TickDurationMs: int := 500

  /**
   * The hour arm's rotation as the clock computes it: 30° per hour plus
   * half a degree per minute, snapped down to the 6° marker below. `hour` is
   * the 24-hour value, so afternoon rotations exceed 360°.
   */
  function HourRotation(hour: int, minute: int): (r: int)
    ensures r % 6 == 0
    ensures 0 <= minute < 60 ==> 30 * hour <= r <= 30 * hour + 24
  {
    assert 30 * hour + 6 * (minute / 12) == 6 * (5 * hour + minute / 12);
    30 * hour + 6 * (minute / 12)
  }

  /** Truncation of a real toward zero. */
  function Trunc(x: real): int {
    if x >= 0.0 then x.Floor else -((-x).Floor)
  }

  /** Truncation moves toward zero by less than one. */
  lemma TruncBounds(x: real)
    ensures 0.0 <= x ==> Trunc(x) as real <= x < Trunc(x) as real + 1.0
    ensures x <= 0.0 ==> Trunc(x) as real - 1.0 < x <= Trunc(x) as real
  {
  }

  /**
   * JavaScript's `%` on numbers: the remainder of truncating division. It
   * takes the sign of the dividend and is smaller than the divisor in size.
   */
  function JsRemainder(a: real, b: real): (m: real)
    requires b != 0.0
    ensures 0.0 <= a ==> 0.0 <= m
    ensures a <= 0.0 ==> m <= 0.0
    ensures -(if b > 0.0 then b else -b) < m < (if b > 0.0 then b else -b)
  {
    RemainderBounds(a, b);
    a - b * (Trunc(a / b) as real)
  }

  /**
   * When `a == b * x` with `b` positive and `x` less than one unit above the
   * whole number `t`, `a - b * t` lies in [0, b).
   */
  lemma BracketAbove(a: real, b: real, x: real, t: real)
    requires 0.0 < b && a == b * x && t <= x < t + 1.0
    ensures 0.0 <= a - b * t < b
  {
    var d := x - t;
    ScaledFraction(b, d);
    var p := b * d;
    assert p == b * x - b * t;
    assert a - b * t == p;
  }

  /** The mirror image: with `x` less than one unit below `t`, `a - b * t` lies in (-b, 0]. */
  lemma BracketBelow(a: real, b: real, x: real, t: real)
    requires 0.0 < b && a == b * x && t - 1.0 < x <= t
    ensures -b < a - b * t <= 0.0
  {
    var d := t - x;
    ScaledFraction(b, d);
    var p := b * d;
    assert p == b * t - b * x;
    assert b * t - a == p;
  }

  /** A positive `b` times a fraction below one whole is below `b`. */
  lemma ScaledFraction(b: real, d: real)
    requires 0.0 < b && 0.0 <= d < 1.0
    ensures 0.0 <= b * d < b
  {
  }

  /** The remainder by a positive divisor lies in (-b, b) and has the dividend's sign. */
  lemma PositiveDivisorRemainder(a: real, b: real)
    requires 0.0 < b
    ensures var m := a - b * (Trunc(a / b) as real);
            && (0.0 <= a ==> 0.0 <= m < b)
            && (a <= 0.0 ==> -b < m <= 0.0)
  {
    var x := a / b;
    TruncBounds(x);
    assert a == b * x;
    if 0.0 < x {
      BracketAbove(a, b, x, Trunc(x) as real);
    } else if x < 0.0 {
      BracketBelow(a, b, x, Trunc(x) as real);
    }
  }

  lemma RemainderBounds(a: real, b: real)
    requires b != 0.0
    ensures var m := a - b * (Trunc(a / b) as real);
            && (0.0 <= a ==> 0.0 <= m)
            && (a <= 0.0 ==> m <= 0.0)
            && -(if b > 0.0 then b else -b) < m < (if b > 0.0 then b else -b)
  {
    if 0.0 < b {
      PositiveDivisorRemainder(a, b);
    } else {
      assert a / b == (-a) / (-b);
      PositiveDivisorRemainder(-a, -b);
    }
  }

  /**
   * The hour arm's rotation by the clock's own real-valued formula: half a
   * degree per minute on top of 30° per hour, snapped down to a 6° marker
   * less than 6° below.
   */
  function JsHourRotation(hour: int, minute: int): (r: real)
    ensures 0 <= minute ==>
      (hour as real) * 30.0 + (minute as real) * 0.5 - 6.0 < r <= (hour as real) * 30.0 + (minute as real) * 0.5
  {
    (hour as real) * 30.0 + (minute as real) * 0.5 - JsRemainder((minute as real) * 0.5, 6.0)
  }

  /** The real-valued formula never leaves the integers: it equals HourRotation. */
  lemma JsHourRotationAgrees(hour: int, minute: int)
    requires 0 <= minute
    ensures JsHourRotation(hour, minute) == HourRotation(hour, minute) as real
  {
    var q, r := minute / 12, minute % 12;
    var x := (minute as real) * 0.5 / 6.0;
    assert x == (q as real) + (r as real) / 12.0;
    assert (q as real) <= x < (q as real) + 1.0;
    assert x.Floor == q;
    assert Trunc(x) == q;
  }

  /**
   * The three rotations of a time of day. Second and minute arms move 6° per
   * unit; the hour arm follows the source's formula on the 24-hour value.
   */
  function ComputeRotations(t: TimeOfDay): (r: Rotations)
    requires t.Valid()
    ensures r.second % 6 == 0 && 0 <= r.second <= 354 && r.second / 6 == t.second
    ensures r.minute % 6 == 0 && 0 <= r.minute <= 354 && r.minute / 6 == t.minute
    ensures r.hour % 6 == 0 && 30 * t.hour <= r.hour <= 30 * t.hour + 24
    ensures r.hour as real == JsHourRotation(t.hour, t.minute)
  {
    JsHourRotationAgrees(t.hour, t.minute);
    Rotations(HourRotation(t.hour, t.minute), 6 * t.minute, 6 * t.second)
  }

  /**
   * Within an hour the hour arm moves only at minutes 12, 24, 36 and 48,
   * each time by one 6° marker.
   */
  lemma HourStepsAtMarkers(hour: int, minute: int)
    requires 0 <= minute < 59
    ensures HourRotation(hour, minute + 1) - HourRotation(hour, minute)
            == if (minute + 1) % 12 == 0 then 6 else 0
  {
    var q := minute / 12;
    DivModUnique(minute, 12, q, minute % 12);
    if (minute + 1) % 12 == 0 {
      DivModUnique(minute + 1, 12, q + 1, 0);
    } else {
      DivModUnique(minute + 1, 12, q, minute % 12 + 1);
    }
  }

  /** The 12-hour value the clock stores: hours past 12 lose 12, 0 and 12 stay. */
  function ReduceHour(hour: int): (r: int)
    requires 0 <= hour < 24
    ensures 0 <= r <= 12
    ensures r % 12 == hour % 12
    ensures hour <= 12 ==> r == hour
  {
    if hour > 12 then hour - 12 else hour
  }

  /**
   * Computing the hour rotation from the 24-hour value points the arm in the
   * same direction as computing it from the 12-hour value.
   */
  lemma HourRotationSameDirection(hour: int, minute: int)
    requires 0 <= hour < 24
    ensures HourRotation(hour, minute) % 360 == HourRotation(ReduceHour(hour), minute) % 360
  {
    if hour > 12 {
      var base := HourRotation(hour - 12, minute);
      assert HourRotation(hour, minute) == base + 360;
      DivModUnique(base + 360, 360, base / 360 + 1, base % 360);
    }
  }

  /** The target sent for an arm: a rotation of 0 is sent as 360, anything else unchanged. */
  function ArmTarget(rotation: int): (target: int)
    ensures target != 0
    ensures rotation == 0 ==> target == 360
    ensures rotation != 0 ==> target == rotation
    ensures target % 360 == rotation % 360
  {
    if rotation == 0 then 360 else rotation
  }

  /**
   * The second arm is pre-rotated when it is about to move from 360° to 6°:
   * its rotation is 6, which happens exactly at second 1.
   */
  predicate SecondSeam(t: TimeOfDay)
    requires t.Valid()
    ensures SecondSeam(t) <==> t.second == 1
  {
    ComputeRotations(t).second == 6
  }

  /**
   * The minute arm is pre-rotated when it is about to move from 360° to 6°
   * with the second arm at 0: exactly at 0 seconds past minute 1.
   */
  predicate MinuteSeam(t: TimeOfDay)
    requires t.Valid()
    ensures MinuteSeam(t) <==> t.second == 0 && t.minute == 1
  {
    var r := ComputeRotations(t);
    r.second == 0 && r.minute == 6
  }

  /**
   * The hour arm is pre-rotated when its rotation is 6 with the minute arm
   * at 72 and the second arm at 0: only at 00:12:00, since at 12:12:00 the
   * unreduced hour rotation is 366.
   */
  predicate HourSeam(t: TimeOfDay)
    requires t.Valid()
    ensures HourSeam(t) <==> t == TimeOfDay(0, 12, 0)
  {
    var r := ComputeRotations(t);
    assert t.minute == 12 ==> r.hour == 30 * t.hour + 6;
    r.second == 0 && r.minute == 72 && r.hour == 6
  }

  /**
   * The requests of one tick: first the seam pre-rotations that apply (second,
   * minute, hour), then the animations of the second, minute and hour arm.
   */
  function TickRequests(t: TimeOfDay): seq<Request>
    requires t.Valid()
  {
    var r := ComputeRotations(t);
    (if SecondSeam(t) then [PreRotate(SecondArm)] else []) +
    (if MinuteSeam(t) then [PreRotate(MinuteArm)] else []) +
    (if HourSeam(t) then [PreRotate(HourArm)] else []) +
    [ Animate(SecondArm, ArmTarget(r.second), TickDurationMs),
      Animate(MinuteArm, ArmTarget(r.minute), TickDurationMs),
      Animate(HourArm, ArmTarget(r.hour), TickDurationMs) ]
  }

  /**
   * A tick sends at most one pre-rotation, for the arm whose seam applies,
   * followed by exactly three animations, second, minute and hour arm in
   * that order, each to its non-zero target in 500 ms, and no immediate
   * rotation.
   */
  lemma TickRequestsShape(t: TimeOfDay)
    requires t.Valid()
    ensures var q := TickRequests(t);
            var r := ComputeRotations(t);
            && 3 <= |q| <= 4
            && q[|q| - 3..] == [ Animate(SecondArm, ArmTarget(r.second), TickDurationMs),
                                 Animate(MinuteArm, ArmTarget(r.minute), TickDurationMs),
                                 Animate(HourArm, ArmTarget(r.hour), TickDurationMs) ]
            && (forall i | 0 <= i < |q| - 3 :: q[i].PreRotate?)
            && (PreRotate(SecondArm) in q <==> SecondSeam(t))
            && (PreRotate(MinuteArm) in q <==> MinuteSeam(t))
            && (PreRotate(HourArm) in q <==> HourSeam(t))
            && (forall i | 0 <= i < |q| :: !q[i].Rotate?)
            && (forall i | 0 <= i < |q| && q[i].Animate? :: q[i].target != 0 && q[i].durationMs == TickDurationMs)
  {
  }
}
