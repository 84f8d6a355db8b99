/**
 * Wall-clock time as the clock reads it. The clock shows real local time
 * minus an offset in seconds; only the time of day (hour, minute, second)
 * reaches the arms, so the model works on local seconds modulo one day.
 */
module ClockTime {

  const SecondsPerDay: int := 86400
  const SecondsPerHour: int := 3600

  /** A time of day as `Date.getHours/getMinutes/getSeconds` report it. */
  datatype TimeOfDay = TimeOfDay(hour: int, minute: int, second: int) {
    predicate Valid() {
      0 <= hour < 24 && 0 <= minute < 60 && 0 <= second < 60
    }
  }

  /** Seconds since midnight of a time of day. */
  function JoinTime(t: TimeOfDay): int {
    SecondsPerHour * t.hour + 60 * t.minute + t.second
  }

  /** Euclidean division is determined by any decomposition with a remainder in range. */
  lemma DivModUnique(x: int, n: int, q: int, r: int)
    requires 0 < n && 0 <= r < n && x == n * q + r
    ensures x / n == q && x % n == r
  {
    var q', r' := x / n, x % n;
    var d := q - q';
    assert n * d == r' - r by {
      assert n * q' + r' == n * q + r;
      assert n * d == n * q - n * q';
    }
    MultipleBounds(n, d);
  }

  /** A nonzero multiple of `n` is at least `n` away from zero. */
  lemma MultipleBounds(n: int, d: int)
    requires 0 < n
    ensures d > 0 ==> n * d >= n
    ensures d < 0 ==> n * d <= -n
  {
    if d > 0 {
      assert n * d == n + n * (d - 1);
    } else if d < 0 {
      assert n * d == -n - n * (-d - 1);
    }
  }

  /** Splits seconds since midnight into hour, minute and second. */
  function SplitTime(s: int): (t: TimeOfDay)
    requires 0 <= s < SecondsPerDay
    ensures t.Valid()
    ensures JoinTime(t) == s
  {
    TimeOfDay(s / SecondsPerHour, (s % SecondsPerHour) / 60, s % 60)
  }

  /** Splitting undoes joining: every valid time of day is recovered from its seconds. */
  lemma SplitJoin(t: TimeOfDay)
    requires t.Valid()
    ensures SplitTime(JoinTime(t)) == t
  {
    var s := JoinTime(t);
    var m := 60 * t.minute + t.second;
    DivModUnique(s, SecondsPerHour, t.hour, m);
    DivModUnique(m, 60, t.minute, t.second);
    DivModUnique(s, 60, 60 * t.hour + t.minute, t.second);
  }

  /**
   * The time of day the clock shows: real local time `nowSeconds` minus
   * `offset` seconds, taken modulo one day.
   */
  function DisplayedTime(nowSeconds: int, offset: int): (t: TimeOfDay)
    ensures t.Valid()
    ensures exists days :: nowSeconds - offset == SecondsPerDay * days + JoinTime(t)
  {
    var v := nowSeconds - offset;
    var t := SplitTime(v % SecondsPerDay);
    assert v == SecondsPerDay * (v / SecondsPerDay) + JoinTime(t);
    t
  }

  /**
   * Adding `hours` hours to the offset shows a time `hours` hours earlier:
   * the minute and the second stay, the hour goes back modulo 24.
   */
  lemma RewindShiftsDisplayedTime(nowSeconds: int, offset: int, hours: int)
    ensures var before := DisplayedTime(nowSeconds, offset);
            var after := DisplayedTime(nowSeconds, offset + SecondsPerHour * hours);
            after.minute == before.minute && after.second == before.second &&
            after.hour == (before.hour - hours) % 24
  {
    var before := DisplayedTime(nowSeconds, offset);
    var v := nowSeconds - offset;
    var days := v / SecondsPerDay;
    assert v == SecondsPerDay * days + JoinTime(before);
    var h' := (before.hour - hours) % 24;
    var j := (before.hour - hours) / 24;
    assert before.hour - hours == 24 * j + h';
    var expected := TimeOfDay(h', before.minute, before.second);
    var v' := nowSeconds - (offset + SecondsPerHour * hours);
    assert v' == SecondsPerDay * (days + j) + JoinTime(expected) by {
      calc {
        v';
        v - SecondsPerHour * hours;
        SecondsPerDay * days + SecondsPerHour * (before.hour - hours) + 60 * before.minute + before.second;
        SecondsPerDay * days + SecondsPerHour * (24 * j + h') + 60 * before.minute + before.second;
        SecondsPerDay * (days + j) + JoinTime(expected);
      }
    }
    DivModUnique(v', SecondsPerDay, days + j, JoinTime(expected));
    SplitJoin(expected);
  }
}
