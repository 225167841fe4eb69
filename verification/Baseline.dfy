/** The window a period is measured against: `shift_months_back` and `DateRange.previous_period`. */
module Baseline {
  import opened Wrappers
  import opened Clock
  import opened Calendar

  datatype Preset = NoPreset | Today | Week | ThisMonth | Quarter | Year

  datatype DateRange = DateRange(start: int, end: int)

  /** The baseline would start before year 1. */
  datatype OutOfRange = PeriodOutOfRange

  predicate InCalendar(w: DateRange) {
    DATE_MIN <= w.start <= w.end <= DATE_MAX
  }

  function Days(w: DateRange): int {
    w.end - w.start + 1
  }

  function PresetMonths(p: Preset): int {
    match p
    case Today | ThisMonth => 1
    case Quarter => 3
    case Year => 12
    case _ => 0
  }

  function ShiftMonthsBack(day: int, months: nat): Result<int, OutOfRange>
    requires DATE_MIN <= day
  {
    var index := MonthOf(day) - months;
    if index < FIRST_MONTH then Failure(PeriodOutOfRange)
    else
      var n := DayOfMonth(day);
      Success(MonthStart(index) + (if n <= MonthLength(index) then n else MonthLength(index)) - 1)
  }

  function PrecedingWindow(w: DateRange): Result<DateRange, OutOfRange> {
    var prevEnd := w.start - 1;
    var prevStart := prevEnd - (Days(w) - 1);
    if prevEnd < DATE_MIN || prevStart < DATE_MIN then Failure(PeriodOutOfRange)
    else Success(DateRange(prevStart, prevEnd))
  }

  predicate CoversWholeMonths(w: DateRange)
    requires DATE_MIN <= w.start && DATE_MIN <= w.end
  {
    DayOfMonth(w.start) == 1 && w.end == MonthEnd(MonthOf(w.end))
  }

  function ShiftedPeriod(w: DateRange, p: Preset): Result<DateRange, OutOfRange>
    requires InCalendar(w)
  {
    if p == Week then
      if w.start - 7 < DATE_MIN then Failure(PeriodOutOfRange) else Success(DateRange(w.start - 7, w.end - 7))
    else if p == NoPreset then PrecedingWindow(w)
    else
      var start := ShiftMonthsBack(w.start, PresetMonths(p));
      var end := ShiftMonthsBack(w.end, PresetMonths(p));
      if start.Failure? || end.Failure? then Failure(PeriodOutOfRange)
      else
        ShiftedDay(w.end, PresetMonths(p));
        var landed := if CoversWholeMonths(w) then MonthEnd(MonthOf(end.value)) else end.value;
        Success(DateRange(start.value, landed))
  }

  function PreviousPeriod(w: DateRange, p: Preset): Result<DateRange, OutOfRange>
    requires InCalendar(w)
  {
    var previous := ShiftedPeriod(w, p);
    if previous.Failure? then previous
    else if previous.value.end < w.start then previous
    else PrecedingWindow(w)
  }

  // ---------------------------------------------------------------- what the shift does

  /** The shifted day lies `months` months earlier, on the same day of the month or on that month's last day. */
  lemma ShiftedDay(day: int, months: nat)
    requires DATE_MIN <= day
    ensures ShiftMonthsBack(day, months).Success? <==> FIRST_MONTH <= MonthOf(day) - months
    ensures ShiftMonthsBack(day, months).Success? ==>
      var d := ShiftMonthsBack(day, months).value;
      && DATE_MIN <= d <= day && MonthOf(d) == MonthOf(day) - months
      && (DayOfMonth(d) == DayOfMonth(day) || (DayOfMonth(d) < DayOfMonth(day) && d == MonthEnd(MonthOf(d))))
  {
    var index := MonthOf(day) - months;
    if FIRST_MONTH <= index {
      var d := ShiftMonthsBack(day, months).value;
      MonthsOrdered(FIRST_MONTH, index);
      MonthOfUnique(d, index);
      MonthsOrdered(index, MonthOf(day));
    }
  }

  lemma ShiftMonotone(a: int, b: int, months: nat)
    requires DATE_MIN <= a <= b
    requires ShiftMonthsBack(a, months).Success?
    ensures ShiftMonthsBack(b, months).Success?
    ensures ShiftMonthsBack(a, months).value <= ShiftMonthsBack(b, months).value
  {
    MonthOfMonotone(a, b);
    ShiftedDay(a, months);
    ShiftedDay(b, months);
    if MonthOf(a) < MonthOf(b) {
      MonthsOrdered(MonthOf(a) - months, MonthOf(b) - months);
    }
  }

  // ---------------------------------------------------------------- what the baseline is

  lemma ShiftedOrdered(w: DateRange, p: Preset)
    requires InCalendar(w) && ShiftedPeriod(w, p).Success?
    ensures var s := ShiftedPeriod(w, p).value; DATE_MIN <= s.start <= s.end
  {
    if p != Week && p != NoPreset {
      ShiftMonotone(w.start, w.end, PresetMonths(p));
      ShiftedDay(w.start, PresetMonths(p));
      ShiftedDay(w.end, PresetMonths(p));
    }
  }

  /** Every baseline is a real window that ends before the period it measures starts. */
  lemma BaselineWellFormed(w: DateRange, p: Preset)
    requires InCalendar(w) && PreviousPeriod(w, p).Success?
    ensures var b := PreviousPeriod(w, p).value; DATE_MIN <= b.start <= b.end < w.start
  {
    ShiftedOrdered(w, p);
  }

  /** Without a preset the baseline has the period's length and ends the day before it. */
  lemma PlainBaseline(w: DateRange)
    requires InCalendar(w)
    ensures PreviousPeriod(w, NoPreset).Success? <==> DATE_MIN <= w.start - Days(w)
    ensures PreviousPeriod(w, NoPreset).Success? ==>
      var b := PreviousPeriod(w, NoPreset).value; b.end + 1 == w.start && Days(b) == Days(w)
  {
  }

  /** The shifted stretch overlaps the period it would measure, so the plain window replaces it. */
  predicate StretchTooLong(w: DateRange, p: Preset)
    requires InCalendar(w)
  {
    match p
    case NoPreset => false
    case Week => w.start <= w.end - 7
    case _ =>
      var months := PresetMonths(p);
      var gap := MonthOf(w.end) - MonthOf(w.start) - months;
      gap > 0 || (gap == 0 && (CoversWholeMonths(w) || ClampedDay(w.end, months) >= DayOfMonth(w.start)))
  }

  function ClampedDay(day: int, months: nat): int
    requires DATE_MIN <= day
  {
    var length := MonthLength(MonthOf(day) - months);
    if DayOfMonth(day) <= length then DayOfMonth(day) else length
  }

  /** Days compare by month first, then by day of the month. */
  lemma CompareDays(j: int, a: int, k: int, b: int)
    requires FIRST_MONTH <= j && FIRST_MONTH <= k && 1 <= a <= MonthLength(j) && 1 <= b <= MonthLength(k)
    ensures MonthStart(j) + a <= MonthStart(k) + b <==> j < k || (j == k && a <= b)
  {
    if j < k {
      MonthsOrdered(j, k);
    } else if k < j {
      MonthsOrdered(k, j);
    }
  }

  /** Where the shifted stretch ends, in month and day of the month. */
  function LandedDay(w: DateRange, months: nat): int
    requires InCalendar(w)
  {
    if CoversWholeMonths(w) then MonthLength(MonthOf(w.end) - months) else ClampedDay(w.end, months)
  }

  lemma ShiftedEnd(w: DateRange, p: Preset)
    requires InCalendar(w) && PresetMonths(p) > 0 && ShiftedPeriod(w, p).Success?
    ensures var k := MonthOf(w.end) - PresetMonths(p);
      && FIRST_MONTH <= k && 1 <= LandedDay(w, PresetMonths(p)) <= MonthLength(k)
      && ShiftedPeriod(w, p).value.end == MonthStart(k) + LandedDay(w, PresetMonths(p)) - 1
  {
    hide MonthLength, MonthFrom;
    ShiftedDay(w.end, PresetMonths(p));
  }

  lemma StretchTooLongExactly(w: DateRange, p: Preset)
    requires InCalendar(w) && ShiftedPeriod(w, p).Success?
    ensures StretchTooLong(w, p) <==> w.start <= ShiftedPeriod(w, p).value.end
  {
    if PresetMonths(p) > 0 {
      var k := MonthOf(w.end) - PresetMonths(p);
      ShiftedEnd(w, p);
      CompareDays(MonthOf(w.start), DayOfMonth(w.start), k, LandedDay(w, PresetMonths(p)));
    }
  }

  /** When there is no baseline, told from the window and the preset alone. */
  lemma BaselineMissingExactly(w: DateRange, p: Preset)
    requires InCalendar(w)
    ensures PreviousPeriod(w, p).Failure? <==>
      || (p == Week && w.start - 7 < DATE_MIN)
      || (PresetMonths(p) > 0 && MonthOf(w.start) - PresetMonths(p) < FIRST_MONTH)
      || ((p == NoPreset || StretchTooLong(w, p)) && w.start - Days(w) < DATE_MIN)
  {
    if p != NoPreset && p != Week {
      ShiftedDay(w.start, PresetMonths(p));
      ShiftedDay(w.end, PresetMonths(p));
      MonthOfMonotone(w.start, w.end);
    }
    if ShiftedPeriod(w, p).Success? {
      StretchTooLongExactly(w, p);
    }
  }

  /** A window of whole months is measured against as many whole months, the preset's distance earlier. */
  lemma WholeMonthsLandOnWholeMonths(w: DateRange, p: Preset)
    requires InCalendar(w) && PresetMonths(p) > 0 && CoversWholeMonths(w) && !StretchTooLong(w, p)
    requires PreviousPeriod(w, p).Success?
    ensures var b := PreviousPeriod(w, p).value;
      && DATE_MIN <= b.start && DATE_MIN <= b.end && CoversWholeMonths(b)
      && MonthOf(b.start) == MonthOf(w.start) - PresetMonths(p)
      && MonthOf(b.end) == MonthOf(w.end) - PresetMonths(p)
  {
    ShiftedDay(w.start, PresetMonths(p));
    ShiftedEnd(w, p);
    StretchTooLongExactly(w, p);
    LastDayOfMonth(MonthOf(w.end) - PresetMonths(p));
  }

  lemma LastDayOfMonth(k: int)
    requires FIRST_MONTH <= k
    ensures DATE_MIN <= MonthEnd(k) && MonthOf(MonthEnd(k)) == k
  {
    MonthsOrdered(FIRST_MONTH, k);
    MonthOfUnique(MonthEnd(k), k);
  }

  /** A week, and any stretch no longer than one, is measured against the same weekdays seven days earlier. */
  lemma WeekKeepsWeekdays(w: DateRange)
    requires InCalendar(w) && Days(w) <= 7 && PreviousPeriod(w, Week).Success?
    ensures var b := PreviousPeriod(w, Week).value;
      Days(b) == Days(w) && b.start % 7 == w.start % 7 && b.end + 7 == w.end
  {
  }
}
