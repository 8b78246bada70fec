/**
 * Instants are integer milliseconds; a calendar day is a block of DAY
 * consecutive instants. These stand for date-fns' startOfDay and endOfDay.
 */
module Calendar {

  type Millis = int

  /** Milliseconds in one calendar day. */
  const DAY: int := 86_400_000

  /** First instant (00:00:00.000) of the day holding `t`. */
  function StartOfDay(t: Millis): (s: Millis)
    ensures s <= t < s + DAY
    ensures s % DAY == 0
  {
    t - t % DAY
  }

  /** Last instant (23:59:59.999) of the day holding `t`. */
  function EndOfDay(t: Millis): (e: Millis)
    ensures t <= e < t + DAY
    ensures (e + 1) % DAY == 0
  {
    StartOfDay(t) + DAY - 1
  }

  /** `t` lies in the closed window [StartOfDay(d), EndOfDay(d)] exactly when it falls on the day of `d`. */
  lemma {:induction false} WithinDayWindow(t: Millis, d: Millis)
    ensures StartOfDay(d) <= t <= EndOfDay(d) <==> StartOfDay(t) == StartOfDay(d)
  {
    var s := StartOfDay(d);
    if s <= t <= s + DAY - 1 {
      assert t % DAY == t - s;
    }
  }

  /** Both ends of a day are on that day, so taking the start of day twice changes nothing. */
  lemma {:induction false} DayBoundsOnSameDay(d: Millis)
    ensures StartOfDay(StartOfDay(d)) == StartOfDay(d)
    ensures StartOfDay(EndOfDay(d)) == StartOfDay(d)
  {
    WithinDayWindow(StartOfDay(d), d);
    WithinDayWindow(EndOfDay(d), d);
  }
}
