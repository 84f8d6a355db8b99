# Analog clock with rewind — a Dafny model

The clock (`js/clock.js`) draws three arms and moves them once a second to
the time shown, which is real local time minus an `offset` in seconds. Its
`moveBack(hours)` operation stops the one-second interval, turns the second
arm to 12 o'clock, then runs a chain of "rounds": in each round the minute arm
animates one full turn backwards while the hour arm animates 30° backwards.
When the chain ends, the offset grows by `hours` hours and ticking is
scheduled again.

This project models the logic of that file. It covers the arithmetic from a
time of day to arm rotations, the 0 → 360 target substitution, the seam
pre-rotations, and the stored `current*` fields. It also covers the rewind
plan, the chain of rounds as a state machine, the timers as counters, and
`getOffset`.

- `clock_time.dfy` (module `ClockTime`): the time of day shown at real local
  time `nowSeconds` with offset `offset`, and how changing the offset shifts it.
- `clock_angles.dfy` (module `ClockAngles`): the rotations of a time of day.
  The hour formula `hour*30 + minute*0.5 − (minute*0.5 % 6)` is modelled twice.
  One version is written over reals with JavaScript's truncating `%`. The other
  is the integer form `30*hour + 6*(minute/12)`. A lemma proves they are equal.
  The module also holds the targets sent per arm, the seam conditions, and the
  requests of one tick.
- `rewind.dfy` (module `Rewind`): the plan `moveBack` derives, with
  `Math.floor` written out for negative divisors. It also holds the requests
  of a chain of rounds, and where the hour arm ends up.
- `clock.dfy` (module `ClockModel`): class `Clock` with the source's fields,
  plus the timer state and the chain's phase. Every callback is a method:
  the first-update timeout (`FireStart`), a tick (`UpdateTime`), the end of
  the second arm's alignment (`EndAlignment`) and the end of a round
  (`EndRound`). `FinishRewind` loops over these two until the chain is over.
  Each call moves the chain one step
  (`Idle → Aligning → Rounds(n) → … → Rounds(0) → Idle`).

Everything the clock asks of the drawing surface is appended to the field
`requests`: a pre-rotation, an animation to a target with its duration, or an
immediate rotation. What the drawing looks like is not modelled.

Behaviour of the code as written, as the model states it:

- The hour rotation is computed from the 24-hour `getHours()` value before
  the reduction to the 12-hour scale (js/clock.js:154,167). So it ranges up to
  23·30+24 = 714, not over [0, 360). `HourRotationSameDirection` proves it
  still points the arm the same way as the 12-hour value would. Because the
  value is unreduced, the target falls from 714 at 23:48 to 360 at midnight.
- The stored `currentHour` is the reduced hour, so it lies in [0, 12].
  12 o'clock stays 12.
- The source has no guard for `hours <= 0`. Then `rounds <= 0`, no round
  runs, and the offset still changes by `hours` hours. At `hours == 0` the
  per-round duration is a division by zero that is never used.
  `RewindLandsOnNewTime` shows the hour arm ends where a tick at the same
  real time `nowSeconds`, with the new offset, puts it, modulo a full turn,
  exactly when `hours >= 0` or `hours` is a multiple of 12. The values
  themselves can differ by whole turns: at 00:30:00, `moveBack(1)` leaves
  the hour rotation at −18, while a tick at that real time computes 702 for
  23:30:00.
- `moveBack` clears only the interval, not the first-update timeout that
  `_registerInterval` schedules (js/clock.js:215,270-276). When a rewind
  starts within that first second, updates continue during the rewind. After
  the chain ends, a second interval runs beside the first one, whose handle
  is lost (`RewindBeforeFirstUpdate`, for any number of hours). `MoveBack`
  stops all ticking only when no first update is pending and at most one
  timer existed before, with the stored handle naming the running interval
  (its contract). After a lost handle, one interval keeps ticking.

## Model

| member | source | states |
|---|---|---|
| `ClockTime.SplitTime` | js/clock.js:146-149 | the hour, minute and second of a second of the day are in range and recompose to it |
| `ClockTime.SplitJoin` | js/clock.js:146-149 | splitting the seconds of a valid time of day gives that time back (round trip) |
| `ClockTime.DisplayedTime` | js/clock.js:146-149 | the shown time is valid and equals real time minus the offset, up to whole days |
| `ClockTime.RewindShiftsDisplayedTime` | js/clock.js:146-149 | adding `h` hours to the offset keeps minute and second and moves the shown hour back by `h` modulo 24 |
| `ClockAngles.HourRotation` | js/clock.js:150-154 | the integer hour rotation is a multiple of 6, between 30·hour and 30·hour + 24 for every minute of the hour |
| `ClockAngles.JsRemainder` | js/clock.js:154 | JavaScript's `%`: the remainder has the sign of the dividend and is smaller than the divisor in size |
| `ClockAngles.JsHourRotation` | js/clock.js:150-154 | the source's formula lies at or below the smooth value 30·hour + minute/2 and less than 6 below it |
| `ClockAngles.JsHourRotationAgrees` | js/clock.js:150-154 | the real-valued hour formula with JavaScript's `%` equals `30*hour + 6*(minute/12)` for every non-negative minute |
| `ClockAngles.ComputeRotations` | js/clock.js:147-158 | second and minute rotations are multiples of 6 in [0,354] that decode back to second and minute; the hour rotation is a multiple of 6 in [30*hour, 30*hour+24] and equals the source's real formula |
| `ClockAngles.HourStepsAtMarkers` | js/clock.js:150-154 | within an hour the hour rotation grows by 6 exactly when the minute reaches 12, 24, 36 or 48, and otherwise stays |
| `ClockAngles.ReduceHour` | js/clock.js:164-167 | the stored hour lies in [0,12], equals the hour modulo 12, and is unchanged up to 12 |
| `ClockAngles.HourRotationSameDirection` | js/clock.js:154-167 | the 24-hour rotation equals the 12-hour one modulo 360 |
| `ClockAngles.ArmTarget` | js/clock.js:182-192 | the target sent is never 0; 0 becomes 360, any other rotation passes unchanged; both point the same way |
| `ClockAngles.SecondSeam` | js/clock.js:172-174 | the second arm is pre-rotated iff the second is 1 |
| `ClockAngles.MinuteSeam` | js/clock.js:175-177 | the minute arm is pre-rotated iff the time is 0 seconds past minute 1 |
| `ClockAngles.HourSeam` | js/clock.js:178-180 | the hour arm is pre-rotated iff the time is 00:12:00 (never at 12:12:00) |
| `ClockAngles.TickRequestsShape` | js/clock.js:169-192 | a tick sends at most one pre-rotation, for an arm iff its seam holds, then exactly three animations, second, minute, hour in that order, to their non-zero targets in 500 ms, and no immediate rotation |
| `Rewind.FloorDiv` | js/clock.js:210-213 | `Math.floor(a/b)` on integers: the quotient bracketed by `b*q` and `b*q+b` for either sign of `b` |
| `Rewind.FloorDivExact` | js/clock.js:210-213 | an exact quotient is its own floor, for either sign of the divisor |
| `Rewind.PlanQuotients` | js/clock.js:208-213 | the three floor divisions of the plan come out as 60h, h and 600 |
| `Rewind.PlanFor` | js/clock.js:208-213 | for whole hours h: offset change 3600h, minutes 60h, rounds h, duration 600h, and a per-round duration of 600 unless h = 0 |
| `Rewind.Chain` | js/clock.js:235-254 | a chain started with counter n sends three requests per round that runs, 3*max(n,0) in all |
| `Rewind.ChainRound` | js/clock.js:236-247 | round k animates the minute arm to its rotation − 360, the hour arm to 30(k+1)° below its start, then puts the minute arm back |
| `Rewind.RewindLandsOnNewTime` | js/clock.js:207-254 | after the chain the hour rotation equals, modulo 360, the one a tick at the same real time `nowSeconds` computes with the new offset iff h ≥ 0 or 12 divides h; minute and second rotations of the new time are the old ones |
| `ClockModel.Clock.constructor` | js/clock.js:65-76 | offset, shown values and rotations start at 0, with one first update scheduled and no interval |
| `ClockModel.Clock.UpdateTime` | js/clock.js:145-202 | the stored values are the shown time's (hour reduced to [0,12]) and its rotations; the tick's requests are appended; offset, timers and phase are unchanged |
| `ClockModel.Clock.RegisterInterval` | js/clock.js:266-277 | one more first update is scheduled |
| `ClockModel.Clock.FireStart` | js/clock.js:270-276 | the first update ticks once, then one more interval runs and the handle names it |
| `ClockModel.Clock.ClearInterval` | js/clock.js:215 | the interval the handle names stops if it runs; no other timer changes |
| `ClockModel.Clock.MoveBack` | js/clock.js:207-230 | the chain starts aligning with the plan for `hours` and the commit value offset + 3600h; the interval is cleared; ticking stops when no first update is pending and at most one timer existed, with the stored handle naming it; the second arm animates to 0 in 15 ms per shown second; offset and arm state are unchanged |
| `ClockModel.Clock.OneRound` | js/clock.js:236-252 | a positive counter starts a round (minute arm to rotation − 360, hour arm to rotation − 30) and decrements it; otherwise the offset is committed and ticking is scheduled again |
| `ClockModel.Clock.EndAlignment` | js/clock.js:224-229 | when the second arm is aligned, the chain starts its rounds with the plan's count as counter, or commits at once when it is not positive; the chain's requests are neither lost nor added to |
| `ClockModel.Clock.EndRound` | js/clock.js:240-244 | when a round ends the minute arm is put back, the hour rotation drops exactly 30, the counter moves to the next round or the commit; the chain's requests are neither lost nor added to |
| `ClockModel.Clock.FinishRewind` | js/clock.js:235-254 | the chain runs to its end: the committed offset, every pending request sent, the hour rotation 30° lower per remaining round, the minute rotation unchanged, ticking scheduled once more |
| `ClockModel.Clock.Rewind` | js/clock.js:207-254 | `moveBack(h)` with its whole chain: offset + 3600h, hour rotation − 30·max(h,0), minute rotation unchanged, requests are the alignment then the chain of h rounds of 600 ms; the stored hour, minute, second and second rotation are unchanged |
| `ClockModel.Clock.GetOffset` | js/clock.js:259-261 | returns the offset and changes nothing |
| `ClockModel.RewindBeforeFirstUpdate` | js/clock.js:215-277 | a rewind of any number of hours started before the first update leaves the clock ticking, and ends with two intervals running |

## Left out

- Drawing: the surface, background, dot, arm shapes, colours, sizes, the arm
  centre (`midX`, `midY`) and the options (js/clock.js:31-63,67-68,78-140).
  These are foreign calls; the model records each request instead.
- Animation itself: interpolation, easing, the `0.000001` angle of a
  pre-rotation, and durations as elapsed time. Durations appear only as numbers
  in the requests. The `animateWith` coupling (the minute arm animated
  together with the second arm, the hour arm with the minute arm,
  js/clock.js:186,190,245) is not recorded: an `Animate` request does not
  name a partner arm, so the model does not capture that linked animations
  start together.
- `Date`, the local time zone and daylight saving time. Real time is an
  integer count of local seconds, `nowSeconds`, and the shown time is
  `(nowSeconds − offset) mod 86400`. Sub-second time is not modelled.
- The time the rewind takes. `RewindLandsOnNewTime` compares the chain's end
  with a tick at the same real time. In the source the first tick after the
  commit comes at least a second later, after the alignment (15 ms per shown
  second) and the rounds (600 ms each). So that tick can land one 6° marker
  further on, and its second rotation differs.
- Fractional `hours`: `moveBack` is modelled for whole numbers of hours only.
  Fractions of an hour would give partial minutes and, below one hour, zero
  rounds.
- `ClockModel.Clock.MoveBack`: requires that no rewind chain is running. A
  second `moveBack` during a chain makes the source run two callback chains
  side by side, which a single phase cannot represent.
- The interval's own ticks have no separate method: each is a call of
  `UpdateTime`. Timer delays, the `delay || 1000` default, and the unused
  `initial` argument of `_updateTime` are not modelled.
- Validation errors (non-positive hours, a rewind already running, zero
  rounds) are not modelled, and the hour rotation is not kept in [0, 360):
  the source has no such checks or reduction.
