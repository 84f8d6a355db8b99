/**
 * The rewind: the plan `moveBack` derives from a number of hours, the
 * requests the chain of rounds sends to the drawing surface, and where the
 * hour arm stands when the chain is over.
 */
module Rewind {
  import opened ClockTime
  import opened ClockAngles

  datatype Option<T> = None | Some(value: T)

  /** Milliseconds per second the second arm needs to reach 12 o'clock. */
  const AlignMsPerSecond: int := 15

  /** Milliseconds of animation per minute rewound. */
  const MsPerMinuteRewound: int := 10

  /**
   * `Math.floor(a / b)` on integers: the greatest `q` with `q * b <= a` when
   * `b` is positive, with `q * b >= a` when `b` is negative. Dafny's own `/`
   * is Euclidean and differs for a negative divisor.
   */
  function FloorDiv(a: int, b: int): (q: int)
    requires b != 0
    ensures b > 0 ==> b * q <= a < b * q + b
    ensures b < 0 ==> b * q + b < a <= b * q
  {
    if b > 0 then a / b else (-a) / (-b)
  }

  /** An exact quotient is its own floor. */
  lemma FloorDivExact(a: int, b: int, q: int)
    requires b != 0 && a == b * q
    ensures FloorDiv(a, b) == q
  {
    if b > 0 {
      DivModUnique(a, b, q, 0);
    } else {
      DivModUnique(-a, -b, q, 0);
    }
  }

  /**
   * What `moveBack(hours)` derives before animating: the offset change in
   * seconds, the minutes and full rounds to rewind, the total duration and
   * the duration of one round. The last is absent when there are no rounds
   * (the source divides by zero there and never uses the result).
   */
  datatype RewindPlan = RewindPlan(
    offsetChange: int,
    minutes: int,
    rounds: int,
    duration: int,
    durationPerRound: Option<int>)

  function PlanFor(hours: int): (p: RewindPlan)
    ensures p.offsetChange == SecondsPerHour * hours
    ensures p.minutes == 60 * hours && p.rounds == hours
    ensures p.duration == 600 * hours
    ensures p.durationPerRound == if hours == 0 then None else Some(600)
  {
    PlanQuotients(hours);
    var offset := hours * SecondsPerHour;
    var minutes := FloorDiv(offset, 60);
    var rounds := FloorDiv(minutes, 60);
    var duration := MsPerMinuteRewound * minutes;
    RewindPlan(offset, minutes, rounds, duration,
               if rounds == 0 then None else Some(FloorDiv(duration, rounds)))
  }

  /** The three floor divisions of `PlanFor` are exact for whole hours. */
  lemma PlanQuotients(hours: int)
    ensures FloorDiv(hours * SecondsPerHour, 60) == 60 * hours
    ensures FloorDiv(60 * hours, 60) == hours
    ensures hours != 0 ==> FloorDiv(MsPerMinuteRewound * (60 * hours), hours) == 600
  {
    FloorDivExact(hours * SecondsPerHour, 60, 60 * hours);
    FloorDivExact(60 * hours, 60, hours);
    if hours != 0 {
      FloorDivExact(MsPerMinuteRewound * (60 * hours), hours, 600);
    }
  }

  /** How many rounds the chain runs: its counter test `rounds-- > 0` skips all when `rounds <= 0`. */
  function RoundsRun(rounds: int): nat {
    if rounds > 0 then rounds else 0
  }

  /**
   * The requests of a chain of rounds started with counter `n`, with the
   * minute arm at `minuteRotation` and the hour arm at `hourRotation`: per
   * round, the minute arm animates one turn back while the hour arm animates
   * 30° back, and when the round ends the minute arm is put back to
   * `minuteRotation`.
   */
  function Chain(n: int, minuteRotation: int, hourRotation: int, durationPerRound: int): (q: seq<Request>)
    ensures |q| == 3 * RoundsRun(n)
    decreases n
  {
    if n <= 0 then []
    else
      [ Animate(MinuteArm, minuteRotation - 360, durationPerRound),
        Animate(HourArm, hourRotation - 30, durationPerRound),
        Rotate(MinuteArm, minuteRotation) ]
      + Chain(n - 1, minuteRotation, hourRotation - 30, durationPerRound)
  }

  /** Round `k` of a chain sends the hour arm to 30° per round below where it started. */
  lemma {:induction false} ChainRound(n: int, minuteRotation: int, hourRotation: int, durationPerRound: int, k: int)
    requires 0 <= k < n
    ensures var q := Chain(n, minuteRotation, hourRotation, durationPerRound);
            q[3 * k] == Animate(MinuteArm, minuteRotation - 360, durationPerRound) &&
            q[3 * k + 1] == Animate(HourArm, hourRotation - 30 * (k + 1), durationPerRound) &&
            q[3 * k + 2] == Rotate(MinuteArm, minuteRotation)
    decreases n
  {
    if k > 0 {
      ChainRound(n - 1, minuteRotation, hourRotation - 30, durationPerRound, k - 1);
    }
  }

  /** Whole turns do not change where an arm points. */
  lemma WholeTurns(a: int, k: int)
    ensures (a + 360 * k) % 360 == a % 360
  {
    DivModUnique(a + 360 * k, 360, a / 360 + k, a % 360);
  }

  /** Fewer than twelve 30° steps always change where an arm points. */
  lemma PartialTurn(a: int, s: int)
    requires 0 < s < 12
    ensures (a + 30 * s) % 360 != a % 360
  {
    var w := a % 360;
    DivModUnique(a, 360, a / 360, w);
    if w + 30 * s < 360 {
      DivModUnique(a + 30 * s, 360, a / 360, w + 30 * s);
    } else {
      DivModUnique(a + 30 * s, 360, a / 360 + 1, w + 30 * s - 360);
    }
  }

  /**
   * When the chain for `hours` has run, the hour arm stands where a tick at
   * the same real time `nowSeconds` and the new offset shows it (modulo a
   * full turn) exactly when the rewind goes back, or goes forward by a
   * multiple of 12 hours.
   * The minute and second rotations of the new time are those of the old.
   */
  lemma RewindLandsOnNewTime(nowSeconds: int, offset: int, hours: int)
    ensures var before := ComputeRotations(DisplayedTime(nowSeconds, offset));
            var after := ComputeRotations(DisplayedTime(nowSeconds, offset + PlanFor(hours).offsetChange));
            after.minute == before.minute && after.second == before.second &&
            ((before.hour - 30 * RoundsRun(PlanFor(hours).rounds)) % 360 == after.hour % 360
             <==> hours >= 0 || hours % 12 == 0)
  {
    var t := DisplayedTime(nowSeconds, offset);
    var t' := DisplayedTime(nowSeconds, offset + SecondsPerHour * hours);
    RewindShiftsDisplayedTime(nowSeconds, offset, hours);
    var j := (t.hour - hours) / 24;
    assert t.hour - hours == 24 * j + t'.hour;
    var b, a := HourRotation(t.hour, t.minute), HourRotation(t'.hour, t'.minute);
    // The old rotation, turned back 30° per hour, is the new one plus whole turns.
    assert b - 30 * hours == a + 360 * (2 * j);
    if hours >= 0 {
      WholeTurns(a, 2 * j);
    } else {
      var p, s := hours / 12, hours % 12;
      assert b == a + 30 * s + 360 * (2 * j + p);
      WholeTurns(a + 30 * s, 2 * j + p);
      if s > 0 {
        PartialTurn(a, s);
      }
    }
  }
}
