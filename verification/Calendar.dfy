/** The proleptic Gregorian calendar over day numbers and month numbers (`12 * year + month - 1`). */
module Calendar {
  import opened Clock

  const FIRST_MONTH := 12
  const LAST_MONTH := 119_999

  predicate IsLeap(year: int) {
    year % 4 == 0 && (year % 100 != 0 || year % 400 == 0)
  }

  /** `monthrange(year, month)[1]`. */
  function MonthLength(k: int): (n: int)
    ensures 28 <= n <= 31
  {
    var m := k % 12;
    if m == 1 then if IsLeap(k / 12) then 29 else 28
    else if m == 3 || m == 5 || m == 8 || m == 10 then 30
    else 31
  }

  /** The day number of the 1st of a month: the months laid end to end from 0001-01-01. */
  function MonthStart(k: int): int
    requires FIRST_MONTH <= k
    decreases k
  {
    if k == FIRST_MONTH then DATE_MIN else MonthStart(k - 1) + MonthLength(k - 1)
  }

  function MonthEnd(k: int): int
    requires FIRST_MONTH <= k
  {
    MonthStart(k) + MonthLength(k) - 1
  }

  lemma {:induction false} MonthsOrdered(j: int, k: int)
    requires FIRST_MONTH <= j <= k
    ensures MonthStart(j) + 28 * (k - j) <= MonthStart(k)
    ensures j < k ==> MonthEnd(j) < MonthStart(k)
    decreases k - j
  {
    if j < k {
      MonthsOrdered(j, k - 1);
    }
  }

  /** The month a day of the calendar lies in. */
  function MonthOf(day: int): (k: int)
    requires DATE_MIN <= day
    ensures FIRST_MONTH <= k && MonthStart(k) <= day <= MonthEnd(k)
  {
    MonthFrom(FIRST_MONTH, day)
  }

  function MonthFrom(j: int, day: int): (k: int)
    requires FIRST_MONTH <= j && MonthStart(j) <= day
    ensures j <= k && MonthStart(k) <= day <= MonthEnd(k)
    decreases day - MonthStart(j)
  {
    if day <= MonthEnd(j) then j else MonthFrom(j + 1, day)
  }

  lemma MonthOfUnique(day: int, k: int)
    requires DATE_MIN <= day && FIRST_MONTH <= k && MonthStart(k) <= day <= MonthEnd(k)
    ensures MonthOf(day) == k
  {
    var j := MonthOf(day);
    if j < k {
      MonthsOrdered(j, k);
    } else if k < j {
      MonthsOrdered(k, j);
    }
  }

  lemma MonthOfMonotone(a: int, b: int)
    requires DATE_MIN <= a <= b
    ensures MonthOf(a) <= MonthOf(b)
  {
    var j, k := MonthOf(a), MonthOf(b);
    if k < j {
      MonthsOrdered(k, j);
    }
  }

  function DayOfMonth(day: int): (n: int)
    requires DATE_MIN <= day
    ensures 1 <= n <= MonthLength(MonthOf(day))
  {
    day - MonthStart(MonthOf(day)) + 1
  }

  // ---------------------------------------------------------------- agreement with date ordinals

  function DaysBeforeYear(year: int): int {
    var y := year - 1;
    y * 365 + y / 4 - y / 100 + y / 400
  }

  function DaysBeforeMonth(k: int): int {
    var m := k % 12;
    [0, 31, 59, 90, 120, 151, 181, 212, 243, 273, 304, 334][m] + if m > 1 && IsLeap(k / 12) then 1 else 0
  }

  lemma DivSteps(y: int)
    ensures (y + 1) / 4 == y / 4 + if (y + 1) % 4 == 0 then 1 else 0
    ensures (y + 1) / 100 == y / 100 + if (y + 1) % 100 == 0 then 1 else 0
    ensures (y + 1) / 400 == y / 400 + if (y + 1) % 400 == 0 then 1 else 0
  {
  }

  lemma LeapRule(year: int)
    ensures (if year % 4 == 0 then 1 else 0) - (if year % 100 == 0 then 1 else 0) + (if year % 400 == 0 then 1 else 0)
         == if IsLeap(year) then 1 else 0
  {
  }

  lemma YearStep(year: int)
    ensures DaysBeforeYear(year + 1) == DaysBeforeYear(year) + if IsLeap(year) then 366 else 365
  {
    DivSteps(year - 1);
    LeapRule(year);
  }

  /** The months laid end to end give the proleptic Gregorian ordinals, so the calendar ends with December 9999. */
  lemma {:induction false} MonthStartIsOrdinal(k: int)
    requires FIRST_MONTH <= k
    ensures MonthStart(k) == DaysBeforeYear(k / 12) + DaysBeforeMonth(k) + 1
    decreases k
  {
    if k == FIRST_MONTH {
    } else {
      var j := k - 1;
      MonthStartIsOrdinal(j);
      YearStep(j / 12);
      if j % 12 == 11 {
        assert k / 12 == j / 12 + 1 && k % 12 == 0;
      } else {
        assert k / 12 == j / 12 && k % 12 == j % 12 + 1;
      }
    }
  }

  lemma CalendarEnds()
    ensures MonthEnd(LAST_MONTH) == DATE_MAX
    ensures forall day | DATE_MIN <= day <= DATE_MAX :: MonthOf(day) <= LAST_MONTH
  {
    MonthStartIsOrdinal(LAST_MONTH);
    MonthOfUnique(DATE_MAX, LAST_MONTH);
    forall day | DATE_MIN <= day <= DATE_MAX ensures MonthOf(day) <= LAST_MONTH {
      MonthOfMonotone(day, DATE_MAX);
    }
  }
}
