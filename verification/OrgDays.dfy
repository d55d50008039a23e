/** `startOfOrgDay` of src/attendance/attendance.service.ts over an arbitrary calendar: a strictly
    increasing assignment of UTC milliseconds to day numbers, so that 23- and 25-hour days are covered. */
module OrgDays {

  ghost predicate Increasing(midnight: int -> int) {
    forall a, b :: a < b ==> midnight(a) < midnight(b)
  }

  /** `cal(d)` is the instant at which day `d` begins in the organization's zone, at midnight or, where
      the clocks skip midnight, later. */
  type Calendar = f: int -> int | Increasing(f) witness (d: int) => d

  const MS_PER_DAY := 24 * 60 * 60 * 1000

  function DayFrom(cal: Calendar, t: int, d: int): (r: int)
    requires cal(d) <= t
    ensures cal(r) <= t < cal(r + 1)
    decreases t - cal(d)
  {
    if t < cal(d + 1) then d else DayFrom(cal, t, d + 1)
  }

  function DayBefore(cal: Calendar, t: int, d: int): (r: int)
    requires t < cal(d)
    ensures cal(r) <= t < cal(r + 1)
    decreases cal(d) - t
  {
    if cal(d - 1) <= t then d - 1 else DayBefore(cal, t, d - 1)
  }

  /** The day that contains instant `t`. */
  function OrgDay(cal: Calendar, t: int): (d: int)
    ensures cal(d) <= t < cal(d + 1)
  {
    if cal(0) <= t then DayFrom(cal, t, 0) else DayBefore(cal, t, 0)
  }

  function StartOfOrgDay(cal: Calendar, t: int): int {
    cal(OrgDay(cal, t))
  }

  lemma CalendarInOrder(cal: Calendar, a: int, b: int)
    ensures a <= b <==> cal(a) <= cal(b)
    ensures cal(a) == cal(b) <==> a == b
  {
    if a < b {
      assert cal(a) < cal(b);
    } else if b < a {
      assert cal(b) < cal(a);
    }
  }

  lemma OrgDayIsUnique(cal: Calendar, t: int, d: int)
    requires cal(d) <= t < cal(d + 1)
    ensures OrgDay(cal, t) == d
  {
    var e := OrgDay(cal, t);
    CalendarInOrder(cal, d + 1, e);
    CalendarInOrder(cal, e + 1, d);
  }

  /** Later instants lie on later days, and a midnight is the start of its own day. */
  lemma StartOfOrgDayIsMonotone(cal: Calendar, t: int, u: int)
    requires t <= u
    ensures StartOfOrgDay(cal, t) <= StartOfOrgDay(cal, u)
    ensures StartOfOrgDay(cal, StartOfOrgDay(cal, t)) == StartOfOrgDay(cal, t)
  {
    var d, e := OrgDay(cal, t), OrgDay(cal, u);
    CalendarInOrder(cal, d, e);
    CalendarInOrder(cal, e + 1, d);
    CalendarInOrder(cal, d, d + 1);
    OrgDayIsUnique(cal, cal(d), d);
  }

  /** The UTC date, as a day number, on which an instant falls. */
  function UtcDate(t: int): int { t / MS_PER_DAY }

  /** A zone whose offset from UTC never changes. */
  function FixedOffset(offset: int): Calendar {
    d => d * MS_PER_DAY - offset
  }

  /** Every day of the range begins on a UTC date of its own. */
  ghost predicate DistinctUtcDates(cal: Calendar, first: int, last: int) {
    forall d :: first <= d < last ==> UtcDate(cal(d)) != UtcDate(cal(d + 1))
  }

  /** Two neighbouring days share a UTC date exactly when the first is short enough to end on the date on which it
      began. */
  lemma SharedUtcDateIff(cal: Calendar, d: int)
    ensures UtcDate(cal(d)) == UtcDate(cal(d + 1))
       <==> cal(d) % MS_PER_DAY + (cal(d + 1) - cal(d)) < MS_PER_DAY
  {
    assert cal(d) < cal(d + 1);
  }

  lemma {:induction false} DistinctDatesIncrease(cal: Calendar, first: int, last: int, a: int, b: int)
    requires DistinctUtcDates(cal, first, last) && first <= a < b <= last
    ensures UtcDate(cal(a)) < UtcDate(cal(b))
    decreases b - a
  {
    assert cal(b - 1) < cal(b);
    assert UtcDate(cal(b - 1)) != UtcDate(cal(b - 1 + 1));
    if a < b - 1 {
      DistinctDatesIncrease(cal, first, last, a, b - 1);
    }
  }

  lemma FixedOffsetDatesAreDistinct(offset: int, first: int, last: int)
    ensures DistinctUtcDates(FixedOffset(offset), first, last)
  {
    forall d | first <= d < last
      ensures UtcDate(FixedOffset(offset)(d)) != UtcDate(FixedOffset(offset)(d + 1))
    {
      SharedUtcDateIff(FixedOffset(offset), d);
    }
  }
}
