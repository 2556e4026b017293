/** Instants and calendar days.
    An instant is a number of milliseconds since the epoch; a day is the index of
    its UTC day, Day(t) of section 21.4.1 of ECMA-262. */
module Days {
  import Numbers

  const DAY_MS := 86_400_000

  /** Dafny's `/` is a floor for a positive divisor, so instants before 1970 are right too. */
  function DayOf(instant: int): int {
    instant / DAY_MS
  }

  function Midnight(day: int): int {
    day * DAY_MS
  }

  function UtcMidnight(instant: int): int {
    Midnight(DayOf(instant))
  }

  predicate SameDay(a: int, b: int) {
    DayOf(a) == DayOf(b)
  }

  /** Math.round(n / d) for d > 0: the nearest integer, halves rounded up. */
  function RoundDiv(n: int, d: int): int
    requires d > 0
  {
    (2 * n + d) / (2 * d)
  }

  /** Rounding moves a quotient by at most a half. */
  lemma RoundDivIsNearest(n: int, d: int)
    requires d > 0
    ensures -d <= 2 * (n - d * RoundDiv(n, d)) <= d
  {
    var q := RoundDiv(n, d);
    assert 2 * d * q <= 2 * n + d < 2 * d * q + 2 * d;
  }

  /** A day is the 86,400,000 milliseconds from its midnight on. */
  lemma DayHasInstant(instant: int, day: int)
    ensures DayOf(instant) == day <==> day * 86_400_000 <= instant < day * 86_400_000 + 86_400_000
    ensures Midnight(day) == day * 86_400_000
    ensures SameDay(instant, Midnight(day)) <==> DayOf(instant) == day
    ensures UtcMidnight(instant) <= instant < UtcMidnight(instant) + 86_400_000 && UtcMidnight(instant) % 86_400_000 == 0
  {
  }

  /** Midnight is the only instant of its day that is a whole number of days, and the
      day a midnight belongs to is the day it was made from. */
  lemma MidnightOfDay(day: int)
    ensures DayOf(Midnight(day)) == day
    ensures UtcMidnight(Midnight(day)) == Midnight(day)
  {
  }

  /** The night count of a stay, computed by rounding, is exact. */
  lemma NightsAreExact(checkIn: int, checkOut: int)
    ensures RoundDiv(UtcMidnight(checkOut) - UtcMidnight(checkIn), DAY_MS) == DayOf(checkOut) - DayOf(checkIn)
  {
  }

  /** The days a stay from `from` to `to` occupies: the half-open range of day indices. */
  ghost predicate InStay(from: int, to: int, day: int) {
    DayOf(from) <= day < DayOf(to)
  }

  /** Lists the midnights of the half-open range, oldest first. */
  method EnumerateDays(from: int, to: int) returns (days: seq<int>)
    ensures |days| == Numbers.Max(0, DayOf(to) - DayOf(from))
    ensures forall i :: 0 <= i < |days| ==> days[i] == Midnight(DayOf(from) + i) && DayOf(days[i]) == DayOf(from) + i
    ensures forall day :: Midnight(day) in days <==> InStay(from, to, day)
  {
    days := [];
    var start, end := UtcMidnight(from), UtcMidnight(to);
    var t := start;
    while t < end
      invariant t == start + |days| * DAY_MS
      invariant |days| <= Numbers.Max(0, DayOf(to) - DayOf(from))
      invariant forall i :: 0 <= i < |days| ==> days[i] == Midnight(DayOf(from) + i)
      decreases end - t
    {
      days := days + [t];
      t := t + DAY_MS;
    }
    forall i | 0 <= i < |days|
      ensures DayOf(days[i]) == DayOf(from) + i
    {
      MidnightOfDay(DayOf(from) + i);
    }
    forall day
      ensures Midnight(day) in days <==> InStay(from, to, day)
    {
      if InStay(from, to, day) {
        assert days[day - DayOf(from)] == Midnight(day);
      }
    }
  }
}
