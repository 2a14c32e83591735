/**
 * Local date-times as dayjs reports them through `toObject()` (months are
 * 0-based), the proleptic Gregorian "one day earlier" step behind
 * `subtract(n, 'days')`, and the strict `isAfter` order.
 */
module Calendar {

  datatype DateTime = DateTime(
    years: int,
    months: nat,        // 0 = January, as `toObject().months`
    date: nat,          // day of the month, from 1
    hours: nat,
    minutes: nat,
    seconds: nat,
    milliseconds: nat)

  predicate IsLeapYear(y: int)
  {
    y % 4 == 0 && (y % 100 != 0 || y % 400 == 0)
  }

  /** Days in month m (0-based) of year y. */
  function DaysInMonth(y: int, m: nat): (n: nat)
    ensures 28 <= n <= 31
  {
    if m == 1 then (if IsLeapYear(y) then 29 else 28)
    else if m == 3 || m == 5 || m == 8 || m == 10 then 30
    else 31
  }

  /** A date-time that the calendar can show. */
  predicate Valid(d: DateTime)
  {
    d.months < 12 && 1 <= d.date <= DaysInMonth(d.years, d.months)
    && d.hours < 24 && d.minutes < 60 && d.seconds < 60 && d.milliseconds < 1000
  }

  function TimeOfDay(d: DateTime): nat
  {
    d.hours * 3_600_000 + d.minutes * 60_000 + d.seconds * 1000 + d.milliseconds
  }

  /** `a.isAfter(b)`: a is a strictly later instant than b. */
  predicate IsAfter(a: DateTime, b: DateTime)
  {
    a.years > b.years
    || (a.years == b.years
        && (a.months > b.months
            || (a.months == b.months
                && (a.date > b.date
                    || (a.date == b.date && TimeOfDay(a) > TimeOfDay(b))))))
  }

  /**
   * The same local time one calendar day earlier: strictly earlier, and no
   * valid date-time at that time of day lies strictly between it and d, so
   * the step skips no calendar day.
   */
  function PrevDay(d: DateTime): (p: DateTime)
    ensures IsAfter(d, p)
    ensures Valid(d) ==> forall e :: Valid(e) && TimeOfDay(e) == TimeOfDay(d) && IsAfter(d, e) ==> !IsAfter(e, p)
    ensures Valid(d) ==> Valid(p)
    ensures p.hours == d.hours && p.minutes == d.minutes
    ensures p.seconds == d.seconds && p.milliseconds == d.milliseconds
  {
    if d.date > 1 then d.(date := d.date - 1)
    else if d.months > 0 then d.(months := d.months - 1, date := DaysInMonth(d.years, d.months - 1))
    else d.(years := d.years - 1, months := 11, date := 31)
  }

  /** `now.subtract(k, 'days')`: k calendar days before now, at the same local time. */
  function SubtractDays(now: DateTime, k: nat): DateTime
  {
    if k == 0 then now else PrevDay(SubtractDays(now, k - 1))
  }

  /** Stepping back k days from the day before is stepping back k + 1 days. */
  lemma {:induction false} SubtractDaysShift(now: DateTime, k: nat)
    ensures SubtractDays(PrevDay(now), k) == SubtractDays(now, k + 1)
  {
    if k > 0 {
      SubtractDaysShift(now, k - 1);
    }
  }

  /** Going further back always gives a strictly earlier instant. */
  lemma {:induction false} SubtractDaysDecreasing(now: DateTime, j: nat, k: nat)
    requires j < k
    ensures IsAfter(SubtractDays(now, j), SubtractDays(now, k))
    decreases k
  {
    if j < k - 1 {
      SubtractDaysDecreasing(now, j, k - 1);
    }
  }

  /** Stepping back keeps a date valid and keeps its time of day. */
  lemma {:induction false} SubtractDaysValid(now: DateTime, k: nat)
    requires Valid(now)
    ensures Valid(SubtractDays(now, k))
    ensures SubtractDays(now, k).hours == now.hours
  {
    if k > 0 {
      SubtractDaysValid(now, k - 1);
    }
  }

  /** The same calendar day, whatever the time. */
  predicate SameDate(a: DateTime, b: DateTime)
  {
    a.years == b.years && a.months == b.months && a.date == b.date
  }

  lemma IsAfterTransitive(a: DateTime, b: DateTime, c: DateTime)
    requires IsAfter(a, b) && IsAfter(b, c)
    ensures IsAfter(a, c)
  {
  }

  /**
   * Two date-times on the same day stay on a common day when both step back
   * k days, and each keeps its own time of day.
   */
  lemma {:induction false} SubtractDaysSameDate(a: DateTime, b: DateTime, k: nat)
    requires SameDate(a, b)
    ensures SameDate(SubtractDays(a, k), SubtractDays(b, k))
    ensures TimeOfDay(SubtractDays(a, k)) == TimeOfDay(a)
    ensures TimeOfDay(SubtractDays(b, k)) == TimeOfDay(b)
  {
    if k > 0 {
      SubtractDaysSameDate(a, b, k - 1);
    }
  }
}
