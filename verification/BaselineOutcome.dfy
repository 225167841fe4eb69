/** What a period is measured against, told over days of months. */
module BaselineOutcome {
  import opened Wrappers
  import opened Clock
  import opened Calendar
  import opened Baseline

  /** The same day of the month so many months earlier, or that month's last day when it is shorter. */
  predicate IsDayBack(day: int, d: int, months: nat)
    requires DATE_MIN <= day
  {
    && DATE_MIN <= d && MonthOf(d) == MonthOf(day) - months
    && DayOfMonth(d) == if DayOfMonth(day) <= MonthLength(MonthOf(d)) then DayOfMonth(day) else MonthLength(MonthOf(d))
  }

  /** Where the shifted period ends: whole months end on their last day. */
  predicate IsEndBack(w: DateRange, d: int, months: nat)
    requires InCalendar(w)
  {
    if DayOfMonth(w.start) == 1 && DayOfMonth(w.end) == MonthLength(MonthOf(w.end)) then
      DATE_MIN <= d && MonthOf(d) == MonthOf(w.end) - months && DayOfMonth(d) == MonthLength(MonthOf(d))
    else IsDayBack(w.end, d, months)
  }

  /** As many days, ending the day before. */
  predicate IsPreceding(w: DateRange, b: DateRange) {
    b.end == w.start - 1 && b.end - b.start == w.end - w.start
  }

  /** The same stretch so many months earlier, unless it would reach into the period itself. */
  ghost predicate IsMonthsBack(w: DateRange, b: DateRange, months: nat)
    requires InCalendar(w)
  {
    || (IsDayBack(w.start, b.start, months) && IsEndBack(w, b.end, months) && b.end < w.start)
    || (IsPreceding(w, b) && exists d :: IsEndBack(w, d, months) && w.start <= d)
  }

  lemma ShiftedIsBack(w: DateRange, p: Preset)
    requires InCalendar(w) && PresetMonths(p) > 0 && ShiftedPeriod(w, p).Success?
    ensures IsDayBack(w.start, ShiftedPeriod(w, p).value.start, PresetMonths(p))
    ensures IsEndBack(w, ShiftedPeriod(w, p).value.end, PresetMonths(p))
  {
    hide ShiftMonthsBack, IsDayBack, MonthLength;
    ShiftedIsDayBack(w.start, PresetMonths(p));
    ShiftedIsDayBack(w.end, PresetMonths(p));
    if CoversWholeMonths(w) {
      ShiftedEnd(w, p);
      LastDayOfMonth(MonthOf(w.end) - PresetMonths(p));
    }
  }

  lemma ShiftedIsDayBack(day: int, months: nat)
    requires DATE_MIN <= day && ShiftMonthsBack(day, months).Success?
    ensures IsDayBack(day, ShiftMonthsBack(day, months).value, months)
  {
    ShiftedDay(day, months);
  }

  /**
   * What each preset is measured against: a day or a month the same dates one month back, a quarter three, a year
   * twelve, a week the same weekdays; whatever would overlap, and a plain period, the days just before.
   */
  lemma BaselineExactly(w: DateRange, p: Preset)
    requires InCalendar(w) && PreviousPeriod(w, p).Success?
    ensures var b := PreviousPeriod(w, p).value;
      match p
      case NoPreset => IsPreceding(w, b)
      case Week => if w.end < w.start + 7 then b == DateRange(w.start - 7, w.end - 7) else IsPreceding(w, b)
      case Today | ThisMonth => IsMonthsBack(w, b, 1)
      case Quarter => IsMonthsBack(w, b, 3)
      case Year => IsMonthsBack(w, b, 12)
  {
    if PresetMonths(p) > 0 {
      ShiftedIsBack(w, p);
    }
  }
}
