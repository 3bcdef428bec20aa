/**
 * The time left until an event, split into days, hours, minutes and seconds.
 * The difference is the event's `getTime()` minus `Date.now()`, both whole
 * milliseconds, so every step is exact integer arithmetic; for a positive
 * difference `Math.floor` of a quotient is Dafny's `/`.
 */
module Countdown {
  import opened Wrappers

  const MsPerSecond: int := 1000
  const MsPerMinute: int := 60000
  const MsPerHour: int := 3600000
  const MsPerDay: int := 86400000

  datatype Remaining = Remaining(days: int, hours: int, minutes: int, seconds: int)

  /** The whole milliseconds a countdown stands for. */
  function Milliseconds(c: Remaining): (ms: int) {
    c.days * MsPerDay + c.hours * MsPerHour + c.minutes * MsPerMinute + c.seconds * MsPerSecond
  }

  /** Every field non-negative, and each below one unit of the next larger field. */
  predicate InRange(c: Remaining) {
    c.days >= 0 && 0 <= c.hours < 24 && 0 <= c.minutes < 60 && 0 <= c.seconds < 60
  }

  /**
   * The countdown `updateCountdown` publishes for a positive difference: the
   * fields are in range and stand for the difference rounded down to a whole
   * second.
   */
  function Split(diff: int): (c: Remaining)
    requires diff > 0
    ensures InRange(c)
    ensures Milliseconds(c) <= diff < Milliseconds(c) + MsPerSecond
  {
    var c := Remaining(
      diff / MsPerDay,
      (diff % MsPerDay) / MsPerHour,
      (diff % MsPerHour) / MsPerMinute,
      (diff % MsPerMinute) / MsPerSecond);
    SplitSound(diff);
    c
  }

  /** Each remainder chains into the next: reducing modulo a day first does not change the hour remainder, and so on. */
  lemma SplitSound(diff: int)
    requires diff > 0
    ensures var c := Remaining(diff / MsPerDay, (diff % MsPerDay) / MsPerHour,
                               (diff % MsPerHour) / MsPerMinute, (diff % MsPerMinute) / MsPerSecond);
            InRange(c) && Milliseconds(c) <= diff < Milliseconds(c) + MsPerSecond
  {
    var d, r1 := diff / MsPerDay, diff % MsPerDay;
    var h, r2 := r1 / MsPerHour, r1 % MsPerHour;
    assert diff % MsPerHour == r2;
    var m, r3 := r2 / MsPerMinute, r2 % MsPerMinute;
    assert diff % MsPerMinute == r3;
    var s := r3 / MsPerSecond;
    assert diff == d * MsPerDay + h * MsPerHour + m * MsPerMinute + s * MsPerSecond + r3 % MsPerSecond;
  }

  lemma {:induction false} MulAtLeast(k: int, m: int)
    requires k >= 1 && m > 0
    ensures k * m >= m
  {
    if k > 1 {
      MulAtLeast(k - 1, m);
      assert k * m == (k - 1) * m + m;
    }
  }

  /** Quotient and remainder are the only pair that recomposes the dividend. */
  lemma DivModOf(x: int, m: int, q: int, r: int)
    requires m > 0 && 0 <= r < m && x == q * m + r
    ensures x / m == q && x % m == r
  {
    var q', r' := x / m, x % m;
    assert x == q' * m + r';
    if q' > q {
      var k := q' - q;
      assert q' * m == q * m + k * m;
      MulAtLeast(k, m);
    } else if q' < q {
      var k := q - q';
      assert q * m == q' * m + k * m;
      MulAtLeast(k, m);
    }
  }

  /** A countdown in range that rounds the difference down to a whole second is the one `Split` gives. */
  lemma SplitUnique(diff: int, c: Remaining)
    requires diff > 0 && InRange(c)
    requires Milliseconds(c) <= diff < Milliseconds(c) + MsPerSecond
    ensures c == Split(diff)
  {
    var extra := diff - Milliseconds(c);
    var s := c.seconds * MsPerSecond + extra;
    var ms := c.minutes * MsPerMinute + s;
    var hms := c.hours * MsPerHour + ms;
    DivModOf(diff, MsPerDay, c.days, hms);
    DivModOf(hms, MsPerHour, c.hours, ms);
    DivModOf(diff, MsPerHour, c.days * 24 + c.hours, ms);
    DivModOf(ms, MsPerMinute, c.minutes, s);
    DivModOf(diff, MsPerMinute, c.days * 1440 + c.hours * 60 + c.minutes, s);
    DivModOf(s, MsPerSecond, c.seconds, extra);
  }

  /**
   * What a tick at time `now` shows for an event at `date`: nothing once
   * the difference is zero or negative, otherwise the split difference.
   */
  function CountdownAt(date: int, now: int): (r: Option<Remaining>)
    ensures r.None? <==> date <= now
    ensures r.Some? ==> InRange(r.value)
    ensures r.Some? ==> Milliseconds(r.value) <= date - now < Milliseconds(r.value) + MsPerSecond
  {
    var diff := date - now;
    if diff <= 0 then None else Some(Split(diff))
  }
}
