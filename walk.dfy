/**
 * The calendar walk of `#make_glob_pattern`: from `now`, step back one
 * whole day at a time while the stepped date is strictly after `since`, and
 * collect each visited day's hour, day of month, 1-based month and year.
 */
module Walk {
  import opened Calendar

  /** The days the walk visits from d on, newest first. */
  function Window(d: DateTime, since: DateTime): seq<DateTime>
    decreases if IsAfter(d, since) then d.years - since.years + 1 else 0, d.months, d.date
  {
    if IsAfter(d, since) then [d] + Window(PrevDay(d), since) else []
  }

  /** The `patterns` object after the loop: one set per date component. */
  function Components(w: seq<DateTime>): map<string, set<int>>
  {
    map[
      "hour" := set d | d in w :: d.hours as int,
      "day" := set d | d in w :: d.date as int,
      "month" := set d | d in w :: d.months + 1,
      "year" := set d | d in w :: d.years]
  }

  /**
   * The loop `while ((d = now.subtract(daysCount++, 'days')) && d.isAfter(since))`
   * adding `o.hours`, `o.date`, `o.months + 1` and `o.years` to four sets.
   */
  method CollectComponents(now: DateTime, since: DateTime) returns (patterns: map<string, set<int>>)
    ensures patterns == Components(Window(now, since))
  {
    var hour: set<int>, day: set<int>, month: set<int>, year: set<int> := {}, {}, {}, {};
    var daysCount: nat := 0;
    var d := SubtractDays(now, daysCount);
    daysCount := daysCount + 1;
    ghost var visited: seq<DateTime> := [];
    while IsAfter(d, since)
      invariant daysCount >= 1 && d == SubtractDays(now, daysCount - 1)
      invariant Window(now, since) == visited + Window(d, since)
      invariant hour == set x | x in visited :: x.hours as int
      invariant day == set x | x in visited :: x.date as int
      invariant month == set x | x in visited :: x.months + 1
      invariant year == set x | x in visited :: x.years
      decreases if IsAfter(d, since) then d.years - since.years + 1 else 0, d.months, d.date
    {
      var o := d;
      hour := hour + {o.hours};
      day := day + {o.date};
      month := month + {o.months + 1};
      year := year + {o.years};
      visited := visited + [d];
      d := SubtractDays(now, daysCount);
      daysCount := daysCount + 1;
    }
    assert visited == Window(now, since) by {
      assert Window(d, since) == [];
      assert visited + [] == visited;
    }
    patterns := map["hour" := hour, "day" := day, "month" := month, "year" := year];
  }

  /**
   * The walk visits offsets 0, 1, 2, ... in order, each one after since,
   * and stops at the first offset whose date is not after since.
   */
  lemma {:induction false} WindowOffsets(now: DateTime, since: DateTime)
    ensures forall k :: 0 <= k < |Window(now, since)| ==>
      Window(now, since)[k] == SubtractDays(now, k) && IsAfter(SubtractDays(now, k), since)
    ensures !IsAfter(SubtractDays(now, |Window(now, since)|), since)
    decreases if IsAfter(now, since) then now.years - since.years + 1 else 0, now.months, now.date
  {
    if IsAfter(now, since) {
      var p := PrevDay(now);
      WindowOffsets(p, since);
      var w := Window(now, since);
      forall k | 0 <= k < |w|
        ensures w[k] == SubtractDays(now, k) && IsAfter(SubtractDays(now, k), since)
      {
        if k > 0 {
          SubtractDaysShift(now, k - 1);
        }
      }
      SubtractDaysShift(now, |Window(p, since)|);
    }
  }

  /**
   * The loop is tested before its body: today's values are collected when
   * now is strictly after since, and otherwise nothing is collected at all.
   */
  lemma TodayOnlyWhenAfter(now: DateTime, since: DateTime)
    ensures IsAfter(now, since) ==>
      var c := Components(Window(now, since));
      now.hours in c["hour"] && now.date in c["day"]
      && now.months + 1 in c["month"] && now.years in c["year"]
    ensures !IsAfter(now, since) ==>
      Components(Window(now, since)) == map["hour" := {}, "day" := {}, "month" := {}, "year" := {}]
  {
    if !IsAfter(now, since) {
      var c := Components([]);
      assert c["hour"] == {} && c["day"] == {} && c["month"] == {} && c["year"] == {};
    }
  }

  /** With since exactly n days before now, the walk visits exactly n days. */
  lemma DayWindow(now: DateTime, n: nat)
    ensures |Window(now, SubtractDays(now, n))| == n
  {
    var since := SubtractDays(now, n);
    WindowOffsets(now, since);
    var m := |Window(now, since)|;
    if m < n {
      SubtractDaysDecreasing(now, m, n);
    }
  }

  /**
   * The walk skips no day: every valid date-time at now's time of day that
   * is not after now and is strictly after since is visited.
   */
  lemma {:induction false} WindowCovers(now: DateTime, since: DateTime, e: DateTime)
    requires Valid(now) && Valid(e) && TimeOfDay(e) == TimeOfDay(now)
    requires !IsAfter(e, now) && IsAfter(e, since)
    ensures e in Window(now, since)
    decreases if IsAfter(now, since) then now.years - since.years + 1 else 0, now.months, now.date
  {
    if SameDate(e, now) {
      assert e == now;
    } else {
      assert IsAfter(now, e);
      IsAfterTransitive(now, e, since);
      WindowCovers(PrevDay(now), since, e);
    }
  }

  /**
   * Every collected value comes from a valid visited day: the hour is always
   * now's hour, days of month lie in 1..31, months in 1..12, and years
   * between since's year and now's year.
   */
  lemma ComponentRanges(now: DateTime, since: DateTime)
    requires Valid(now)
    ensures forall x :: x in Components(Window(now, since))["hour"] ==> x == now.hours
    ensures forall x :: x in Components(Window(now, since))["day"] ==> 1 <= x <= 31
    ensures forall x :: x in Components(Window(now, since))["month"] ==> 1 <= x <= 12
    ensures forall x :: x in Components(Window(now, since))["year"] ==> since.years <= x <= now.years
  {
    var w := Window(now, since);
    WindowOffsets(now, since);
    forall k | 0 <= k < |w|
      ensures Valid(w[k]) && w[k].hours == now.hours && since.years <= w[k].years <= now.years
    {
      SubtractDaysValid(now, k);
      if k > 0 {
        SubtractDaysDecreasing(now, 0, k);
      }
    }
  }

  /**
   * The code reads the clock twice: `since` is n days before the first
   * read t0, and `now` is the second read. When the second read is later
   * on the same day, the walk visits n + 1 days, offsets 0 to n.
   */
  lemma DayWindowLaterClock(t0: DateTime, now: DateTime, n: nat)
    requires SameDate(now, t0) && TimeOfDay(now) > TimeOfDay(t0)
    ensures |Window(now, SubtractDays(t0, n))| == n + 1
  {
    var since := SubtractDays(t0, n);
    WindowOffsets(now, since);
    SubtractDaysSameDate(now, t0, n);
    var d := SubtractDays(now, n);
    forall k | 0 <= k <= n
      ensures IsAfter(SubtractDays(now, k), since)
    {
      if k < n {
        SubtractDaysDecreasing(now, k, n);
        IsAfterTransitive(SubtractDays(now, k), d, since);
      }
    }
    assert SubtractDays(now, n + 1) == PrevDay(d);
    assert !IsAfter(SubtractDays(now, n + 1), since);
  }
}
