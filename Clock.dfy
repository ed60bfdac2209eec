/**
 * Wall-clock times of day.  A `datetime` whose date part is dropped with
 * `.time()` or formatted with "%H:%M" is a number of minutes since midnight;
 * adding a `timedelta` to it is addition modulo one day.
 */
module Clock {

  const MinutesPerDay: int := 1440

  /** A time of day, in minutes since midnight. */
  type Minutes = m: int | 0 <= m < 1440

  /** The time of day `d` minutes after `t` (d may be negative). */
  function AddMinutes(t: Minutes, d: int): (r: Minutes)
    ensures (r - t - d) % MinutesPerDay == 0
  {
    (t + d) % MinutesPerDay
  }

  /** Two successive shifts are one shift by the sum. */
  lemma AddMinutesTwice(t: Minutes, a: int, b: int)
    ensures AddMinutes(AddMinutes(t, a), b) == AddMinutes(t, a + b)
  {
    var q := (t + a) / MinutesPerDay;
    assert t + a == q * MinutesPerDay + AddMinutes(t, a);
    assert AddMinutes(t, a) + b == (t + a + b) - q * MinutesPerDay;
    ModShift(t + a + b, q);
  }

  /** Shifting by nothing keeps the time. */
  lemma AddNothing(t: Minutes)
    ensures AddMinutes(t, 0) == t
  {
    assert (t + 0) / MinutesPerDay == 0;
  }

  lemma ModShift(x: int, q: int)
    ensures (x - q * MinutesPerDay) % MinutesPerDay == x % MinutesPerDay
  {
  }

  /** "HH:MM" parsed by strptime: a time of day. */
  function HoursMinutes(h: int, m: int): (t: Minutes)
    requires 0 <= h < 24 && 0 <= m < 60
    ensures t / 60 == h && t % 60 == m
  {
    h * 60 + m
  }
}
