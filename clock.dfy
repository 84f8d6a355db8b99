/**
 * The clock object: its displayed time and arm rotations, its offset, the
 * timers that drive the ticks, and the rewind chain that `moveBack` starts.
 * Every callback of the source (the first-update timeout, an interval tick,
 * the end of an animation) is a method the environment calls.
 */
module ClockModel {
  import opened ClockTime
  import opened ClockAngles
  import opened Rewind

  /** Where the rewind chain stands. */
  datatype Phase =
    | Idle
      /** The second arm is animating to 12 o'clock; the rounds come next. */
    | Aligning(plan: RewindPlan, realChange: int)
      /** One round is animating; `left` is the round counter after its decrement. */
    | Rounds(left: int, durationPerRound: int, realChange: int)
  {
    predicate Valid() {
      && (Aligning? ==> (plan.rounds != 0 <==> plan.durationPerRound.Some?))
      && (Rounds? ==> left >= 0)
    }

    /**
     * The requests the rest of the chain will send, with the minute arm at
     * `minuteRotation` and the hour arm at `hourRotation`.
     */
    function Pending(minuteRotation: int, hourRotation: int): seq<Request>
      requires Valid()
    {
      match this
      case Idle => []
      case Aligning(plan, _) =>
        Chain(plan.rounds, minuteRotation, hourRotation,
              if plan.durationPerRound.Some? then plan.durationPerRound.value else 0)
      case Rounds(left, per, _) =>
        [Rotate(MinuteArm, minuteRotation)] + Chain(left, minuteRotation, hourRotation - 30, per)
    }

    /** How many 30° steps of the hour rotation the rest of the chain takes. */
    function RoundsLeft(): nat
      requires Valid()
    {
      match this
      case Idle => 0
      case Aligning(plan, _) => RoundsRun(plan.rounds)
      case Rounds(left, _, _) => left + 1
    }

    /** How many animation completions the rest of the chain waits for. */
    function StepsLeft(): nat
      requires Valid()
    {
      match this
      case Idle => 0
      case Aligning(plan, _) => RoundsRun(plan.rounds) + 1
      case Rounds(left, _, _) => left + 1
    }

    /** The offset committed when the chain ends; `offset` when no chain runs. */
    function Commit(offset: int): int {
      match this
      case Idle => offset
      case Aligning(_, realChange) => realChange
      case Rounds(_, _, realChange) => realChange
    }
  }

  class Clock {
    /** Seconds subtracted from real time. */
    var offset: int

    var currentHour: int
    var currentMinute: int
    var currentSecond: int

    var currentHourRotation: int
    var currentMinuteRotation: int
    var currentSecondRotation: int

    /** First-update timeouts scheduled and not yet fired. */
    var pendingStarts: nat
    /** One-second intervals running. */
    var liveIntervals: nat
    /** Whether the stored interval handle names a running interval. */
    var handleLive: bool

    var phase: Phase
    /** Everything asked of the drawing surface, in order. */
    var requests: seq<Request>

    ghost predicate Valid()
      reads this
    {
      (handleLive ==> liveIntervals > 0) && phase.Valid()
    }

    /** Some timer will still update the clock. */
    predicate Ticking()
      reads this
    {
      pendingStarts > 0 || liveIntervals > 0
    }

    /** At most one timer exists, and the stored handle names the interval if it runs. */
    predicate SingleSchedule()
      reads this
    {
      pendingStarts + liveIntervals <= 1 && (handleLive <==> liveIntervals == 1)
    }

    /** A new clock: offset and rotations 0, the first update scheduled. */
    constructor ()
      ensures Valid() && SingleSchedule()
      ensures offset == 0 && phase == Idle && requests == []
      ensures currentHour == 0 && currentMinute == 0 && currentSecond == 0
      ensures currentHourRotation == 0 && currentMinuteRotation == 0 && currentSecondRotation == 0
      ensures pendingStarts == 1 && liveIntervals == 0 && !handleLive
    {
      offset := 0;
      currentHour, currentMinute, currentSecond := 0, 0, 0;
      currentHourRotation, currentMinuteRotation, currentSecondRotation := 0, 0, 0;
      pendingStarts, liveIntervals, handleLive := 1, 0, false;
      phase := Idle;
      requests := [];
    }

    /**
     * One tick at real local time `nowSeconds`: compute the rotations of the
     * displayed time, send the seam pre-rotations and the three animations,
     * and store the displayed values with the hour on the 12-hour scale.
     */
    method UpdateTime(nowSeconds: int)
      requires Valid()
      modifies this
      ensures Valid()
      ensures var t := DisplayedTime(nowSeconds, offset);
              var r := ComputeRotations(t);
              && currentHour == ReduceHour(t.hour) && currentMinute == t.minute && currentSecond == t.second
              && currentHourRotation == r.hour && currentMinuteRotation == r.minute
              && currentSecondRotation == r.second
              && requests == old(requests) + TickRequests(t)
      ensures 0 <= currentHour <= 12
      ensures offset == old(offset) && phase == old(phase)
      ensures pendingStarts == old(pendingStarts) && liveIntervals == old(liveIntervals)
      ensures handleLive == old(handleLive)
    {
      var t := DisplayedTime(nowSeconds, offset);
      var hour, minute, second := t.hour, t.minute, t.second;
      var r := ComputeRotations(t);
      hour := ReduceHour(hour);
      requests := requests + TickRequests(t);
      currentHour, currentHourRotation := hour, r.hour;
      currentMinute, currentMinuteRotation := minute, r.minute;
      currentSecond, currentSecondRotation := second, r.second;
    }

    /** `_registerInterval`: schedule the first update; the interval starts when it fires. */
    method RegisterInterval()
      modifies this`pendingStarts
      ensures pendingStarts == old(pendingStarts) + 1
    {
      pendingStarts := pendingStarts + 1;
    }

    /**
     * The scheduled first update fires: one tick, then a new one-second
     * interval whose handle replaces the stored one.
     */
    method FireStart(nowSeconds: int)
      requires Valid() && pendingStarts > 0
      modifies this
      ensures Valid()
      ensures var t := DisplayedTime(nowSeconds, offset);
              var r := ComputeRotations(t);
              && currentHour == ReduceHour(t.hour) && currentMinute == t.minute && currentSecond == t.second
              && currentHourRotation == r.hour && currentMinuteRotation == r.minute
              && currentSecondRotation == r.second
              && requests == old(requests) + TickRequests(t)
      ensures offset == old(offset) && phase == old(phase)
      ensures pendingStarts == old(pendingStarts) - 1
      ensures liveIntervals == old(liveIntervals) + 1 && handleLive
    {
      UpdateTime(nowSeconds);
      pendingStarts := pendingStarts - 1;
      liveIntervals, handleLive := liveIntervals + 1, true;
    }

    /** `clearInterval(this.interval)`: stops the interval the handle names, if it runs. */
    method ClearInterval()
      requires Valid()
      modifies this`liveIntervals, this`handleLive
      ensures Valid() && !handleLive
      ensures liveIntervals == old(liveIntervals) - (if old(handleLive) then 1 else 0)
    {
      if handleLive {
        liveIntervals, handleLive := liveIntervals - 1, false;
      }
    }

    /**
     * `moveBack(hours)`: plan the rewind, stop the interval, and animate the
     * second arm to 12 o'clock in 15 ms per displayed second. The offset is
     * not changed yet. A first update that is still scheduled is not
     * cancelled, so the clock stops ticking only when none is pending.
     */
    method MoveBack(hours: int)
      requires Valid() && phase == Idle
      modifies this
      ensures Valid()
      ensures phase == Aligning(PlanFor(hours), old(offset) + SecondsPerHour * hours)
      ensures requests == old(requests) + [Animate(SecondArm, 0, AlignMsPerSecond * currentSecond)]
      ensures liveIntervals == old(liveIntervals) - (if old(handleLive) then 1 else 0) && !handleLive
      ensures pendingStarts == old(pendingStarts)
      ensures old(SingleSchedule()) && old(pendingStarts) == 0 ==> !Ticking() && SingleSchedule()
      ensures offset == old(offset)
      ensures currentHour == old(currentHour) && currentMinute == old(currentMinute)
      ensures currentSecond == old(currentSecond)
      ensures currentHourRotation == old(currentHourRotation)
      ensures currentMinuteRotation == old(currentMinuteRotation)
      ensures currentSecondRotation == old(currentSecondRotation)
    {
      var plan := PlanFor(hours);
      var realChange := plan.offsetChange + offset;
      ClearInterval();
      requests := requests + [Animate(SecondArm, 0, AlignMsPerSecond * currentSecond)];
      phase := Aligning(plan, realChange);
    }

    /**
     * The body of the chain's step with round counter `counter` (the test
     * `rounds-- > 0`): start a round, animating the minute arm one turn back
     * and the hour arm 30° back together, or else commit the offset and
     * schedule ticking again.
     */
    method OneRound(counter: int, durationPerRound: int, realChange: int)
      modifies this
      ensures counter > 0 ==>
        && phase == Rounds(counter - 1, durationPerRound, realChange)
        && requests == old(requests) + [ Animate(MinuteArm, currentMinuteRotation - 360, durationPerRound),
                                         Animate(HourArm, currentHourRotation - 30, durationPerRound) ]
        && offset == old(offset) && pendingStarts == old(pendingStarts)
      ensures counter <= 0 ==>
        && phase == Idle && requests == old(requests)
        && offset == realChange && pendingStarts == old(pendingStarts) + 1
      ensures liveIntervals == old(liveIntervals) && handleLive == old(handleLive)
      ensures currentHour == old(currentHour) && currentMinute == old(currentMinute)
      ensures currentSecond == old(currentSecond)
      ensures currentHourRotation == old(currentHourRotation)
      ensures currentMinuteRotation == old(currentMinuteRotation)
      ensures currentSecondRotation == old(currentSecondRotation)
    {
      if counter > 0 {
        requests := requests + [ Animate(MinuteArm, currentMinuteRotation - 360, durationPerRound),
                                 Animate(HourArm, currentHourRotation - 30, durationPerRound) ];
        phase := Rounds(counter - 1, durationPerRound, realChange);
      } else {
        offset := realChange;
        RegisterInterval();
        phase := Idle;
      }
    }

    /**
     * The second arm has reached 12 o'clock: the chain of rounds starts with
     * the plan's round count as its counter.
     */
    method EndAlignment()
      requires Valid() && phase.Aligning?
      modifies this
      ensures Valid()
      ensures var plan := old(phase).plan;
              phase == if plan.rounds > 0 then Rounds(plan.rounds - 1, plan.durationPerRound.value, old(phase).realChange)
                       else Idle
      ensures requests + phase.Pending(currentMinuteRotation, currentHourRotation)
              == old(requests) + old(phase).Pending(currentMinuteRotation, currentHourRotation)
      ensures phase.StepsLeft() == old(phase).StepsLeft() - 1
      ensures phase.RoundsLeft() == old(phase).RoundsLeft()
      ensures phase.Commit(offset) == old(phase).Commit(offset)
      ensures phase != Idle ==> offset == old(offset)
      ensures pendingStarts == old(pendingStarts) + (if phase == Idle then 1 else 0)
      ensures liveIntervals == old(liveIntervals) && handleLive == old(handleLive)
      ensures currentHour == old(currentHour) && currentMinute == old(currentMinute)
      ensures currentSecond == old(currentSecond)
      ensures currentHourRotation == old(currentHourRotation)
      ensures currentMinuteRotation == old(currentMinuteRotation)
      ensures currentSecondRotation == old(currentSecondRotation)
    {
      var plan, realChange := phase.plan, phase.realChange;
      var per := if plan.durationPerRound.Some? then plan.durationPerRound.value else 0;
      ghost var sent, mr, hr := requests, currentMinuteRotation, currentHourRotation;
      ghost var chain := Chain(plan.rounds, mr, hr, per);
      OneRound(plan.rounds, per, realChange);
      if plan.rounds > 0 {
        var round := [Animate(MinuteArm, mr - 360, per), Animate(HourArm, hr - 30, per)];
        assert requests == sent + round;
        assert chain == round + phase.Pending(mr, hr);
      }
    }

    /**
     * A round's minute-arm animation has ended: the minute arm is put back
     * to its rotation, the hour rotation drops by 30°, and the next round
     * starts or the chain ends.
     */
    method EndRound()
      requires Valid() && phase.Rounds?
      modifies this
      ensures Valid()
      ensures phase == if old(phase).left > 0 then Rounds(old(phase).left - 1, old(phase).durationPerRound, old(phase).realChange)
                       else Idle
      ensures requests + phase.Pending(currentMinuteRotation, currentHourRotation)
              == old(requests) + old(phase).Pending(currentMinuteRotation, old(currentHourRotation))
      ensures phase.StepsLeft() == old(phase).StepsLeft() - 1
      ensures phase.RoundsLeft() == old(phase).RoundsLeft() - 1
      ensures currentHourRotation == old(currentHourRotation) - 30
      ensures phase.Commit(offset) == old(phase).Commit(offset)
      ensures phase != Idle ==> offset == old(offset)
      ensures pendingStarts == old(pendingStarts) + (if phase == Idle then 1 else 0)
      ensures liveIntervals == old(liveIntervals) && handleLive == old(handleLive)
      ensures currentHour == old(currentHour) && currentMinute == old(currentMinute)
      ensures currentSecond == old(currentSecond)
      ensures currentMinuteRotation == old(currentMinuteRotation)
      ensures currentSecondRotation == old(currentSecondRotation)
    {
      var left, per, realChange := phase.left, phase.durationPerRound, phase.realChange;
      ghost var sent, mr, hr := requests, currentMinuteRotation, currentHourRotation;
      ghost var rest := Chain(left, mr, hr - 30, per);
      requests := requests + [Rotate(MinuteArm, currentMinuteRotation)];
      currentHourRotation := currentHourRotation - 30;
      OneRound(left, per, realChange);
      if left > 0 {
        var round := [Animate(MinuteArm, mr - 360, per), Animate(HourArm, hr - 60, per)];
        assert requests == sent + [Rotate(MinuteArm, mr)] + round;
        assert rest == round + phase.Pending(mr, hr - 30);
      }
    }

    /**
     * Lets the rewind chain run to its end, completing each animation it
     * waits for in turn: the offset is committed, ticking is scheduled
     * again, the hour rotation has dropped 30° per round left, and every
     * request of the chain has been sent.
     */
    method FinishRewind()
      requires Valid() && phase != Idle
      modifies this
      ensures Valid() && phase == Idle
      ensures offset == old(phase).Commit(old(offset))
      ensures requests == old(requests) + old(phase).Pending(currentMinuteRotation, old(currentHourRotation))
      ensures currentHourRotation == old(currentHourRotation) - 30 * old(phase).RoundsLeft()
      ensures pendingStarts == old(pendingStarts) + 1
      ensures liveIntervals == old(liveIntervals) && handleLive == old(handleLive)
      ensures currentHour == old(currentHour) && currentMinute == old(currentMinute)
      ensures currentSecond == old(currentSecond)
      ensures currentMinuteRotation == old(currentMinuteRotation)
      ensures currentSecondRotation == old(currentSecondRotation)
    {
      while phase != Idle
        invariant Valid()
        invariant requests + phase.Pending(currentMinuteRotation, currentHourRotation)
                  == old(requests) + old(phase).Pending(currentMinuteRotation, old(currentHourRotation))
        invariant currentHourRotation - 30 * phase.RoundsLeft() == old(currentHourRotation) - 30 * old(phase).RoundsLeft()
        invariant phase.Commit(offset) == old(phase).Commit(old(offset))
        invariant pendingStarts == old(pendingStarts) + (if phase == Idle then 1 else 0)
        invariant liveIntervals == old(liveIntervals) && handleLive == old(handleLive)
        invariant currentHour == old(currentHour) && currentMinute == old(currentMinute)
        invariant currentSecond == old(currentSecond)
        invariant currentMinuteRotation == old(currentMinuteRotation)
        invariant currentSecondRotation == old(currentSecondRotation)
        decreases phase.StepsLeft()
      {
        if phase.Aligning? {
          EndAlignment();
        } else {
          EndRound();
        }
      }
    }

    /**
     * `moveBack(hours)` followed by its whole chain, with no tick in between:
     * the offset grows by `hours` hours, the hour rotation drops 30° for each
     * of `hours` rounds (none when `hours <= 0`), the minute rotation is
     * where it was, and ticking is scheduled again.
     */
    method Rewind(hours: int)
      requires Valid() && phase == Idle
      modifies this
      ensures Valid() && phase == Idle
      ensures offset == old(offset) + SecondsPerHour * hours
      ensures currentHourRotation == old(currentHourRotation) - 30 * RoundsRun(hours)
      ensures currentMinuteRotation == old(currentMinuteRotation)
      ensures requests == old(requests)
                          + [Animate(SecondArm, 0, AlignMsPerSecond * old(currentSecond))]
                          + Chain(hours, old(currentMinuteRotation), old(currentHourRotation), 600)
      ensures pendingStarts == old(pendingStarts) + 1
      ensures liveIntervals == old(liveIntervals) - (if old(handleLive) then 1 else 0) && !handleLive
      ensures currentHour == old(currentHour) && currentMinute == old(currentMinute)
      ensures currentSecond == old(currentSecond)
      ensures currentSecondRotation == old(currentSecondRotation)
    {
      MoveBack(hours);
      FinishRewind();
    }

    /** `getOffset`: the offset, with nothing changed. */
    method GetOffset() returns (o: int)
      ensures o == offset
    {
      o := offset;
    }
  }

  /**
   * A rewind started before the first update has fired: the pending update
   * still fires during the rewind, and once the chain ends a second interval
   * starts beside the first, whose handle is lost.
   */
  method RewindBeforeFirstUpdate(nowSeconds: int, hours: int) returns (tickingDuringRewind: bool, intervals: nat)
    ensures tickingDuringRewind
    ensures intervals == 2
  {
    var c := new Clock();
    c.MoveBack(hours);
    tickingDuringRewind := c.Ticking();
    c.FireStart(nowSeconds);
    c.FinishRewind();
    c.FireStart(nowSeconds);
    intervals := c.liveIntervals;
  }
}
