/** Months whose indivisible manual value a period counts, and the months it is compared with. */
module ManualMonths {
  import opened Wrappers
  import opened Clock
  import opened Calendar
  import opened Periods

  /** The period covers the month, or it reaches today inside the month while starting no later than its 1st. */
  predicate Countable(start: int, end: int, today: int, month: Period) {
    || (start <= month.start && month.end <= end)
    || (start <= month.start && Within(today, month) && today <= end)
  }

  function WholeMonth(k: int): Period
    requires FIRST_MONTH <= k
  {
    Period(MonthStart(k), MonthEnd(k))
  }

  /** Month `k` is among the months of the period and countable. */
  ghost predicate CountableMonth(start: int, end: int, today: int, k: int)
    requires DATE_MIN <= start && DATE_MIN <= end
  {
    MonthOf(start) <= k <= MonthOf(end) && Countable(start, end, today, WholeMonth(k))
  }

  /** The 1sts of the `n` months from month `lo`. */
  ghost function MonthRun(lo: int, n: nat): set<int>
    requires FIRST_MONTH <= lo
  {
    if n == 0 then {} else MonthRun(lo, n - 1) + {MonthStart(lo + n - 1)}
  }

  lemma {:induction false} MonthRunMembers(lo: int, n: nat, k: int)
    requires FIRST_MONTH <= lo && FIRST_MONTH <= k
    ensures MonthStart(k) in MonthRun(lo, n) <==> lo <= k < lo + n
  {
    if n > 0 {
      MonthRunMembers(lo, n - 1, k);
      var top := lo + n - 1;
      if k < top {
        MonthsOrdered(k, top);
      } else if top < k {
        MonthsOrdered(top, k);
      }
    }
  }

  lemma {:induction false} MonthRunCount(lo: int, n: nat)
    requires FIRST_MONTH <= lo
    ensures |MonthRun(lo, n)| == n
  {
    if n > 0 {
      MonthRunCount(lo, n - 1);
      MonthRunMembers(lo, n - 1, lo + n - 1);
    }
  }

  lemma {:induction false} MonthOfMember(lo: int, n: nat, day: int) returns (k: int)
    requires FIRST_MONTH <= lo && day in MonthRun(lo, n)
    ensures lo <= k < lo + n && day == MonthStart(k)
  {
    hide MonthStart;
    if day == MonthStart(lo + n - 1) {
      k := lo + n - 1;
    } else {
      k := MonthOfMember(lo, n - 1, day);
    }
  }

  lemma MonthStartInjective(j: int, k: int)
    requires FIRST_MONTH <= j && FIRST_MONTH <= k && MonthStart(j) == MonthStart(k)
    ensures j == k
  {
    if j < k {
      MonthsOrdered(j, k);
    } else if k < j {
      MonthsOrdered(k, j);
    }
  }

  /** Two runs end to end are one run, and share no month. */
  lemma {:induction false} RunsAdjacent(lo: int, n: nat, m: nat)
    requires FIRST_MONTH <= lo
    ensures MonthRun(lo, n) + MonthRun(lo + n, m) == MonthRun(lo, n + m)
    ensures MonthRun(lo, n) !! MonthRun(lo + n, m)
  {
    if m > 0 {
      RunsAdjacent(lo, n, m - 1);
      MonthRunMembers(lo, n, lo + n + m - 1);
    }
  }

  // ---------------------------------------------------------------- the run of countable months

  /** The first month starting inside the period. */
  ghost function FirstCandidate(start: int): (lo: int)
    requires DATE_MIN <= start
    ensures MonthOf(start) <= lo <= MonthOf(start) + 1
  {
    if start == MonthStart(MonthOf(start)) then MonthOf(start) else MonthOf(start) + 1
  }

  ghost function CountableCount(start: int, end: int, today: int): (n: nat)
    requires DATE_MIN <= start && DATE_MIN <= end
    ensures n > 0 ==> FirstCandidate(start) + n <= MonthOf(end) + 1
  {
    var lo, last := FirstCandidate(start), MonthOf(end);
    if last < lo then 0
    else if Countable(start, end, today, WholeMonth(last)) then last - lo + 1
    else last - lo
  }

  /** Countable months form one run, whatever the period and today are. */
  lemma CountableRun(start: int, end: int, today: int, k: int)
    requires DATE_MIN <= start && DATE_MIN <= end
    ensures CountableMonth(start, end, today, k)
       <==> FirstCandidate(start) <= k < FirstCandidate(start) + CountableCount(start, end, today)
  {
    var j, last := MonthOf(start), MonthOf(end);
    if j <= k <= last {
      MonthsOrdered(j, k);
      MonthsOrdered(k, last);
    }
  }

  /** The period starts by the 1st and ends with the month or later, or reaches today inside the unfinished month. */
  predicate CountsMonth(start: int, end: int, today: int, k: int)
    requires FIRST_MONTH <= k
  {
    && start <= MonthStart(k)
    && (MonthEnd(k) <= end || (MonthStart(k) <= today && today <= MonthEnd(k) && today <= end))
  }

  /** The days of the run are the 1sts of exactly the months of the period that count. */
  lemma CountableExactly(start: int, end: int, today: int, day: int)
    requires DATE_MIN <= start && DATE_MIN <= end
    ensures day in MonthRun(FirstCandidate(start), CountableCount(start, end, today))
      <==> exists k :: MonthOf(start) <= k <= MonthOf(end) && CountsMonth(start, end, today, k) && day == MonthStart(k)
  {
    var lo, n := FirstCandidate(start), CountableCount(start, end, today);
    if day in MonthRun(lo, n) {
      var k := MonthOfMember(lo, n, day);
      CountableRun(start, end, today, k);
      assert CountsMonth(start, end, today, k);
    }
    if k :| MonthOf(start) <= k <= MonthOf(end) && CountsMonth(start, end, today, k) && day == MonthStart(k) {
      CountableRun(start, end, today, k);
      MonthRunMembers(lo, n, k);
    }
  }

  // ---------------------------------------------------------------- the two computations

  /** How many of the first `i` months of the period belong to the run. */
  ghost function RunUpTo(lo: int, n: nat, k: int): nat {
    if k <= lo then 0 else if k <= lo + n then k - lo else n
  }

  /** `_countable_manual_months`. */
  method CountableMonths(start: int, end: int, today: int) returns (r: Result<set<int>, CalendarOverflow>)
    requires DATE_MIN <= start <= DATE_MAX && DATE_MIN <= end <= DATE_MAX
    ensures r.Failure? <==> MonthOf(end) == LAST_MONTH
    ensures r.Success? ==> r.value == MonthRun(FirstCandidate(start), CountableCount(start, end, today))
  {
    hide MonthStart, MonthLength, MonthEnd, MonthFrom, MonthSlice, Countable, FirstCandidate, CountableCount;
    CalendarEnds();
    var j, last := MonthOf(start), MonthOf(end);
    WindowOfMonths(j, last);
    var slices := MonthSlices(MonthStart(j), MonthEnd(last));
    if slices.Failure? {
      return Failure(slices.error);
    }
    ghost var lo, n := FirstCandidate(start), CountableCount(start, end, today);
    var countable: set<int> := {};
    for i := 0 to |slices.value|
      invariant countable == MonthRun(lo, RunUpTo(lo, n, j + i))
    {
      WholeSlices(j, last, i);
      CountableRun(start, end, today, j + i);
      var month := slices.value[i];
      if Countable(start, end, today, month) {
        countable := countable + {month.start};
      }
    }
    r := Success(countable);
  }

  lemma WindowOfMonths(j: int, last: int)
    requires FIRST_MONTH <= j <= LAST_MONTH && FIRST_MONTH <= last <= LAST_MONTH
    ensures DATE_MIN <= MonthStart(j) <= DATE_MAX && DATE_MIN <= MonthEnd(last) <= DATE_MAX
    ensures MonthOf(MonthStart(j)) == j && MonthOf(MonthEnd(last)) == last
  {
    CalendarEnds();
    FirstDay(j);
    FirstDay(last);
    MonthsOrdered(j, LAST_MONTH);
    MonthsOrdered(last, LAST_MONTH);
  }

  lemma FirstDay(k: int)
    requires FIRST_MONTH <= k
    ensures DATE_MIN <= MonthStart(k) && MonthOf(MonthStart(k)) == k && MonthOf(MonthEnd(k)) == k
  {
    MonthsOrdered(FIRST_MONTH, k);
    MonthOfUnique(MonthStart(k), k);
    MonthOfUnique(MonthEnd(k), k);
  }

  /** Slicing a window of whole months gives the whole months. */
  lemma WholeSlices(j: int, last: int, i: nat)
    requires FIRST_MONTH <= j <= LAST_MONTH && FIRST_MONTH <= last <= LAST_MONTH
    requires DATE_MIN <= MonthStart(j) && DATE_MIN <= MonthEnd(last)
    requires i < |SlicesOf(MonthStart(j), MonthEnd(last))|
    ensures j + i <= last && SlicesOf(MonthStart(j), MonthEnd(last))[i] == WholeMonth(j + i)
  {
    hide MonthStart, MonthLength, MonthSlice, MonthFrom;
    WindowOfMonths(j, last);
    assert j + i <= last;
    MonthsOrdered(j, last);
    SliceEdges(MonthStart(j), MonthEnd(last), j + i);
  }

  lemma StartAfterEnd(k: int)
    requires FIRST_MONTH <= k
    ensures k > FIRST_MONTH ==> MonthStart(k) == MonthEnd(k - 1) + 1
    ensures k == FIRST_MONTH ==> MonthStart(k) == DATE_MIN
  {
    hide MonthLength;
  }

  /** The day before a month's 1st lies in the month before, which the first month of the calendar does not have. */
  lemma StepBack(k: int)
    requires FIRST_MONTH <= k
    ensures MonthStart(k) == DATE_MIN <==> k == FIRST_MONTH
    ensures k > FIRST_MONTH ==> DATE_MIN <= MonthStart(k) - 1 && MonthOf(MonthStart(k) - 1) == k - 1
  {
    hide *;
    StartAfterEnd(k);
    if k > FIRST_MONTH {
      StartAfterEnd(FIRST_MONTH);
      MonthsOrdered(FIRST_MONTH, k);
      MonthsOrdered(FIRST_MONTH, k - 1);
      FirstDay(k - 1);
      EndAfterStart(k - 1);
    }
  }

  lemma EndAfterStart(k: int)
    requires FIRST_MONTH <= k
    ensures MonthStart(k) <= MonthEnd(k)
  {
    hide MonthStart;
  }

  /** `_shift_month_start`: one step back lands on the last day of the month before, then on its 1st. */
  method ShiftMonthStart(monthStart: int, monthsBack: nat) returns (r: Result<int, CalendarOverflow>)
    requires DATE_MIN <= monthStart && monthStart == MonthStart(MonthOf(monthStart))
    ensures r.Success? <==> FIRST_MONTH <= MonthOf(monthStart) - monthsBack
    ensures r.Success? ==> r.value == MonthStart(MonthOf(monthStart) - monthsBack)
  {
    hide MonthStart, MonthEnd, MonthLength, MonthFrom;
    ghost var k := MonthOf(monthStart);
    var shifted := monthStart;
    for i := 0 to monthsBack
      invariant FIRST_MONTH <= k - i && shifted == MonthStart(k - i)
    {
      StepBack(k - i);
      if shifted == DATE_MIN {
        return Failure(CalendarOverflow);
      }
      shifted := MonthStart(MonthOf(shifted - 1));
    }
    r := Success(shifted);
  }

  /** `_previous_period_countable_months`: as many months, immediately before the countable ones. */
  method PreviousCountableMonths(start: int, end: int, today: int) returns (r: Result<set<int>, CalendarOverflow>)
    requires DATE_MIN <= start <= DATE_MAX && DATE_MIN <= end <= DATE_MAX
    ensures var lo, n := FirstCandidate(start), CountableCount(start, end, today);
      && (r.Failure? <==> MonthOf(end) == LAST_MONTH || (n > 0 && lo - n < FIRST_MONTH))
      && (r.Success? ==> r.value == if n == 0 then {} else MonthRun(lo - n, n))
  {
    ghost var lo, n := FirstCandidate(start), CountableCount(start, end, today);
    var current := CountableMonths(start, end, today);
    if current.Failure? {
      return current;
    }
    MonthRunCount(lo, n);
    if current.value == {} {
      return Success({});
    }
    var months := Elements(current.value);
    r := ShiftAll(months, |current.value|, lo);
  }

  /** The month numbers behind the days of a run. */
  lemma MonthNumbers(days: seq<int>, lo: int, n: nat) returns (ks: seq<int>)
    requires FIRST_MONTH <= lo && forall day | day in days :: day in MonthRun(lo, n)
    ensures |ks| == |days| && forall i | 0 <= i < |ks| :: lo <= ks[i] < lo + n && days[i] == MonthStart(ks[i])
  {
    hide MonthStart, MonthRun;
    ks := [];
    for i := 0 to |days|
      invariant |ks| == i && forall j | 0 <= j < i :: lo <= ks[j] < lo + n && days[j] == MonthStart(ks[j])
    {
      assert days[i] in days;
      var k := MonthOfMember(lo, n, days[i]);
      ks := ks + [k];
    }
  }

  predicate IsShift(k: int, n: nat, day: int) {
    FIRST_MONTH <= k - n && day == MonthStart(k - n)
  }

  ghost predicate ShiftsOf(ks: seq<int>, n: nat, previous: set<int>) {
    && (forall k | k in ks :: FIRST_MONTH <= k - n && MonthStart(k - n) in previous)
    && (forall day | day in previous :: exists k :: k in ks && IsShift(k, n, day))
  }

  /** Shifting the months of a run, in any order, gives as many months before it. */
  lemma ShiftedRun(days: seq<int>, ks: seq<int>, lo: int, n: nat, previous: set<int>)
    requires FIRST_MONTH <= lo - n && |ks| == |days|
    requires forall i | 0 <= i < |ks| :: lo <= ks[i] < lo + n && days[i] == MonthStart(ks[i])
    requires forall day | day in MonthRun(lo, n) :: day in days
    requires ShiftsOf(ks, n, previous)
    ensures previous == MonthRun(lo - n, n)
  {
    hide MonthStart, MonthRun;
    forall day ensures day in previous <==> day in MonthRun(lo - n, n) {
      if day in previous {
        var k :| k in ks && IsShift(k, n, day);
        MonthRunMembers(lo - n, n, k - n);
      }
      if day in MonthRun(lo - n, n) {
        var k := MonthOfMember(lo - n, n, day);
        MonthRunMembers(lo, n, k + n);
        assert MonthStart(k + n) in days;
        var i :| 0 <= i < |days| && days[i] == MonthStart(k + n);
        MonthStartInjective(ks[i], k + n);
        assert ks[i] in ks;
      }
    }
    SetExt(previous, MonthRun(lo - n, n));
  }

  lemma NoShifts(n: nat)
    ensures ShiftsOf([], n, {})
  {
  }

  lemma ShiftsMore(ks: seq<int>, n: nat, previous: set<int>, k: int, day: int)
    requires ShiftsOf(ks, n, previous) && IsShift(k, n, day)
    ensures ShiftsOf(ks + [k], n, previous + {day})
  {
    hide MonthStart;
    assert k in ks + [k] && forall j | j in ks :: j in ks + [k];
    hide IsShift;
  }

  /** The first month of the run was shifted too, so the whole run fits the calendar. */
  lemma FirstShifted(days: seq<int>, ks: seq<int>, lo: int, n: nat, previous: set<int>)
    requires FIRST_MONTH <= lo && n > 0 && |ks| == |days| && ShiftsOf(ks, n, previous)
    requires forall i | 0 <= i < |ks| :: lo <= ks[i] < lo + n && days[i] == MonthStart(ks[i])
    requires forall day | day in MonthRun(lo, n) :: day in days
    ensures FIRST_MONTH <= lo - n
  {
    hide MonthStart, MonthRun;
    MonthRunMembers(lo, n, lo);
    var i :| 0 <= i < |days| && days[i] == MonthStart(lo);
    MonthStartInjective(ks[i], lo);
    assert ks[i] in ks;
  }

  method ShiftAll(days: seq<int>, n: nat, ghost lo: int) returns (r: Result<set<int>, CalendarOverflow>)
    requires FIRST_MONTH <= lo && n > 0
    requires forall day :: day in days <==> day in MonthRun(lo, n)
    ensures r.Failure? <==> lo - n < FIRST_MONTH
    ensures r.Success? ==> r.value == MonthRun(lo - n, n)
  {
    hide MonthStart, MonthLength, MonthRun, MonthFrom, ShiftsOf;
    ghost var ks := MonthNumbers(days, lo, n);
    NoShifts(n);
    assert ks[..0] == [];
    var previous: set<int> := {};
    for i := 0 to |days|
      invariant ShiftsOf(ks[..i], n, previous)
    {
      FirstDay(ks[i]);
      var shifted := ShiftMonthStart(days[i], n);
      if shifted.Failure? {
        return shifted.PropagateFailure();
      }
      assert ks[..i + 1] == ks[..i] + [ks[i]];
      ShiftsMore(ks[..i], n, previous, ks[i], shifted.value);
      previous := previous + {shifted.value};
    }
    assert ks[..|ks|] == ks;
    FirstShifted(days, ks, lo, n, previous);
    ShiftedRun(days, ks, lo, n, previous);
    r := Success(previous);
  }
}
