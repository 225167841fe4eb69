/** What each line of the payment breakdown shows, told over the payments, the stored totals and the windows. */
module BreakdownOutcome {
  import opened Wrappers
  import opened Clock
  import opened Calendar
  import opened Reporting
  import opened BreakdownRules

  // ---------------------------------------------------------------- which payments and totals a line is about

  predicate IsPaid(sc: Scope, p: Payment) {
    sc.start <= p.day && p.day <= sc.end && exists i :: 0 <= i < |sc.branches| && sc.branches[i] == p.branch
  }

  /** A cash drawer has account type 0, a cashless account type 1; whatever else, or no account, is neither. */
  predicate IsPaidInto(p: Payment, kind: Kind) {
    match kind
    case Cash => p.account.Some? && p.account.value == 0
    case Cashless => p.account.Some? && p.account.value == 1
    case Elsewhere => p.account.None? || (p.account.value != 0 && p.account.value != 1)
  }

  function PaidAt(sc: Scope, branch: int, kind: Kind): Payment -> bool {
    p => IsPaid(sc, p) && p.branch == branch && IsPaidInto(p, kind)
  }

  function PaidIn(sc: Scope, month: int, kind: Kind): Payment -> bool
    requires FIRST_MONTH <= month
  {
    p => IsPaid(sc, p) && MonthStart(month) <= p.day <= MonthEnd(month) && IsPaidInto(p, kind)
  }

  /** The month meets the period and the branch's window holds its last day. */
  predicate IsReportedMonth(sc: Scope, b: int, k: int)
    requires InCalendar(sc)
  {
    && MonthOf(sc.start) <= k <= MonthOf(sc.end)
    && (b in sc.windows && sc.windows[b].start.Some? ==> sc.windows[b].start.value <= MonthEnd(k))
    && (b in sc.windows && sc.windows[b].end.Some? ==> MonthEnd(k) <= sc.windows[b].end.value)
  }

  /** A total is stored for a month the branch reports. */
  predicate HasTotal(sc: Scope, table: Entries, b: int, k: int)
    requires InCalendar(sc)
  {
    IsReportedMonth(sc, b, k) && Slot(b, k) in table
  }

  function TotalOf(sc: Scope, table: Entries, b: int, k: int): int
    requires InCalendar(sc)
  {
    if HasTotal(sc, table, b, k) then table[Slot(b, k)].amount else 0
  }

  /** The total covers no day outside the period. */
  predicate TotalFits(sc: Scope, table: Entries, b: int, k: int)
    requires InCalendar(sc)
  {
    HasTotal(sc, table, b, k) && sc.start <= MonthStart(k) && table[Slot(b, k)].through <= sc.end
  }

  function FittingTotalOf(sc: Scope, table: Entries, b: int, k: int): int
    requires InCalendar(sc)
  {
    if TotalFits(sc, table, b, k) then table[Slot(b, k)].amount else 0
  }

  /** The totals of a branch, one summand a month. */
  function TotalsByMonth(sc: Scope, table: Entries, b: int): seq<int>
    requires InCalendar(sc)
  {
    seq(|Axis(sc)|, i requires 0 <= i < |Axis(sc)| => TotalOf(sc, table, b, Axis(sc)[i]))
  }

  /** The totals of a month that fit, one summand a branch. */
  function FittingByBranch(sc: Scope, table: Entries, k: int): seq<int>
    requires InCalendar(sc)
  {
    seq(|sc.branches|, i requires 0 <= i < |sc.branches| => FittingTotalOf(sc, table, sc.branches[i], k))
  }

  // ---------------------------------------------------------------- the rules say the same

  lemma {:induction false} PartAgrees(a: Payment -> bool, b: Payment -> bool, ps: seq<Payment>)
    requires forall p | p in ps :: a(p) == b(p)
    ensures Part(a, ps) == Part(b, ps)
  {
    if ps != [] {
      PartAgrees(a, b, ps[..|ps| - 1]);
    }
  }

  lemma SameMonths(sc: Scope, table: Entries, b: int, k: int)
    requires InCalendar(sc) && b in sc.branches
    ensures k in Axis(sc) <==> MonthOf(sc.start) <= k <= MonthOf(sc.end)
    ensures IsCovered(sc, b, k) <==> IsReportedMonth(sc, b, k)
    ensures HasEntry(sc, Stored(sc, table), b, k) <==> HasTotal(sc, table, b, k)
    ensures Slot(b, k) in Stored(sc, table) <==> HasTotal(sc, table, b, k)
    ensures Slot(b, k) in Stored(sc, table) ==> Stored(sc, table)[Slot(b, k)] == table[Slot(b, k)]
  {
    MonthOfMonotone(sc.start, sc.end);
    if MonthOf(sc.start) <= k <= MonthOf(sc.end) {
      assert Axis(sc)[k - MonthOf(sc.start)] == k;
    }
  }

  lemma KindsAre(sc: Scope, ps: seq<Payment>, b: int, k: int, kind: Kind)
    ensures Part(OfBranchKind(sc, b, kind), ps) == Part(PaidAt(sc, b, kind), ps)
    ensures FIRST_MONTH <= k ==> Part(OfMonthKind(sc, k, kind), ps) == Part(PaidIn(sc, k, kind), ps)
  {
    forall p ensures Counts(sc, p) <==> IsPaid(sc, p) {
    }
    PartAgrees(OfBranchKind(sc, b, kind), PaidAt(sc, b, kind), ps);
    if FIRST_MONTH <= k {
      PartAgrees(OfMonthKind(sc, k, kind), PaidIn(sc, k, kind), ps);
    }
  }

  lemma {:induction false} RowIsSum(sc: Scope, table: Entries, b: int, months: seq<int>, xs: seq<int>)
    requires InCalendar(sc) && b in sc.branches
    requires |xs| == |months| && forall i | 0 <= i < |xs| :: xs[i] == TotalOf(sc, table, b, months[i])
    ensures RowTotal(Stored(sc, table), b, months) == SumOf(xs)
  {
    if months != [] {
      var n := |months| - 1;
      RowIsSum(sc, table, b, months[..n], xs[..n]);
      SameMonths(sc, table, b, months[n]);
      hide Stored, HasTotal;
    }
  }

  lemma {:induction false} ColumnIsSum(sc: Scope, table: Entries, branches: seq<int>, k: int, xs: seq<int>)
    requires InCalendar(sc) && MonthOf(sc.start) <= k && forall b | b in branches :: b in sc.branches
    requires |xs| == |branches| && forall i | 0 <= i < |xs| :: xs[i] == FittingTotalOf(sc, table, branches[i], k)
    ensures FittingColumn(sc, Stored(sc, table), branches, k) == SumOf(xs)
  {
    if branches != [] {
      var n := |branches| - 1;
      ColumnIsSum(sc, table, branches[..n], k, xs[..n]);
      assert branches[n] in branches;
      SameMonths(sc, table, branches[n], k);
      hide Stored, HasTotal;
    }
  }

  // ---------------------------------------------------------------- the branch lines

  /** A reported month of the branch begins before the period. */
  ghost predicate StartsLate(sc: Scope, b: int)
    requires InCalendar(sc)
  {
    exists k :: IsReportedMonth(sc, b, k) && MonthStart(k) < sc.start
  }

  ghost predicate ReachesBeyond(sc: Scope, table: Entries, b: int)
    requires InCalendar(sc)
  {
    exists k :: HasTotal(sc, table, b, k) && sc.end < table[Slot(b, k)].through
  }

  ghost predicate IsFurthest(sc: Scope, table: Entries, b: int, day: int)
    requires InCalendar(sc)
  {
    && (exists k :: HasTotal(sc, table, b, k) && table[Slot(b, k)].through == day)
    && (forall k | HasTotal(sc, table, b, k) :: table[Slot(b, k)].through <= day)
  }

  /** What the line shows of the branch's totals when they are set against its revenue. */
  ghost predicate ShowsTotals(sc: Scope, table: Entries, l: BranchLine)
    requires InCalendar(sc)
  {
    && (l.yandexPay.Some? <==> exists k :: HasTotal(sc, table, l.branch, k))
    && (l.yandexPay.Some? ==> l.yandexPay.value == SumOf(TotalsByMonth(sc, table, l.branch)))
    && (forall k :: k in l.through <==> HasTotal(sc, table, l.branch, k))
    && (forall k | k in l.through :: l.through[k] == table[Slot(l.branch, k)].through)
    && (forall k :: k in l.missing <==>
          IsReportedMonth(sc, l.branch, k) && Slot(l.branch, k) !in table && MonthStart(k) <= sc.today)
  }

  /** A branch line, field by field. */
  lemma BranchLineExactly(sc: Scope, ps: seq<Payment>, table: Entries, l: BranchLine)
    requires InCalendar(sc) && l.branch in sc.branches && IsBranchLine(sc, ps, table, l)
    ensures l.cash == Part(PaidAt(sc, l.branch, Cash), ps)
    ensures l.cashlessYclients == Part(PaidAt(sc, l.branch, Cashless), ps)
    ensures l.other == Part(PaidAt(sc, l.branch, Elsewhere), ps)
    ensures l.revenue == l.cash + l.cashlessYclients + l.other
    ensures l.reason == Some(StartsMidMonth) <==> StartsLate(sc, l.branch)
    ensures l.reason == Some(BeyondPeriod) <==> !StartsLate(sc, l.branch) && ReachesBeyond(sc, table, l.branch)
    ensures l.reasonThrough.Some? <==> l.reason == Some(BeyondPeriod)
    ensures l.reasonThrough.Some? ==> IsFurthest(sc, table, l.branch, l.reasonThrough.value)
    ensures l.reason.None? ==> ShowsTotals(sc, table, l)
    ensures l.reason.Some? ==> l.yandexPay.None? && l.through == map[] && forall k :: k !in l.missing
    ensures forall i, j | 0 <= i < j < |l.missing| :: l.missing[i] < l.missing[j]
    ensures l.cashless == if l.yandexPay.Some? then l.cashlessYclients - l.yandexPay.value else l.cashlessYclients
  {
    KindsAre(sc, ps, l.branch, 0, Cash);
    KindsAre(sc, ps, l.branch, 0, Cashless);
    KindsAre(sc, ps, l.branch, 0, Elsewhere);
    LineTotals(sc, ps, table, l);
    hide Part, PaidAt, OfBranchKind, ShowsTotals, StartsLate, ReachesBeyond, IsFurthest;
  }

  lemma LateAre(sc: Scope, b: int)
    requires InCalendar(sc) && b in sc.branches
    ensures StartsLate(sc, b) <==> exists k :: IsCovered(sc, b, k) && MonthStartOf(k) < sc.start
  {
    if k :| IsCovered(sc, b, k) && MonthStartOf(k) < sc.start {
      SameMonths(sc, map[], b, k);
      assert IsReportedMonth(sc, b, k) && MonthStart(k) < sc.start;
    }
    if StartsLate(sc, b) {
      var k :| IsReportedMonth(sc, b, k) && MonthStart(k) < sc.start;
      SameMonths(sc, map[], b, k);
      assert IsCovered(sc, b, k) && MonthStartOf(k) < sc.start;
    }
  }

  lemma BeyondAre(sc: Scope, table: Entries, b: int)
    requires InCalendar(sc) && b in sc.branches
    ensures ReachesBeyond(sc, table, b)
      <==> exists k :: HasEntry(sc, Stored(sc, table), b, k) && sc.end < Stored(sc, table)[Slot(b, k)].through
  {
    hide IsCovered, Stored;
    if k :| HasEntry(sc, Stored(sc, table), b, k) && sc.end < Stored(sc, table)[Slot(b, k)].through {
      SameMonths(sc, table, b, k);
      assert HasTotal(sc, table, b, k);
    }
    if ReachesBeyond(sc, table, b) {
      var k :| HasTotal(sc, table, b, k) && sc.end < table[Slot(b, k)].through;
      SameMonths(sc, table, b, k);
    }
  }

  lemma FurthestAre(sc: Scope, table: Entries, b: int, day: int)
    requires InCalendar(sc) && b in sc.branches && IsLatest(sc, Stored(sc, table), b, day)
    ensures IsFurthest(sc, table, b, day)
  {
    var k :| HasEntry(sc, Stored(sc, table), b, k) && Stored(sc, table)[Slot(b, k)].through == day;
    SameMonths(sc, table, b, k);
    forall k | HasTotal(sc, table, b, k) ensures table[Slot(b, k)].through <= day {
      SameMonths(sc, table, b, k);
    }
  }

  lemma ReasonExactly(sc: Scope, table: Entries, b: int, reason: Option<Reason>, through: Option<int>)
    requires InCalendar(sc) && b in sc.branches && IsReason(sc, Stored(sc, table), b, reason, through)
    ensures reason == Some(StartsMidMonth) <==> StartsLate(sc, b)
    ensures reason == Some(BeyondPeriod) <==> !StartsLate(sc, b) && ReachesBeyond(sc, table, b)
    ensures through.Some? <==> reason == Some(BeyondPeriod)
    ensures through.Some? ==> IsFurthest(sc, table, b, through.value)
  {
    hide Stored, IsReportedMonth, IsCovered, HasEntry, StartsLate, ReachesBeyond, IsFurthest;
    LateAre(sc, b);
    BeyondAre(sc, table, b);
    assert reason.Some? ==> reason.value.StartsMidMonth? || reason.value.BeyondPeriod?;
    assert IsApplied(sc, Stored(sc, table), b) <==> !StartsLate(sc, b) && !ReachesBeyond(sc, table, b);
    if through.Some? {
      FurthestAre(sc, table, b, through.value);
    }
  }

  lemma TotalsExactly(sc: Scope, ps: seq<Payment>, table: Entries, l: BranchLine)
    requires InCalendar(sc) && l.branch in sc.branches && IsBranchLine(sc, ps, table, l) && l.reason.None?
    ensures ShowsTotals(sc, table, l)
  {
    RowIsSum(sc, table, l.branch, Axis(sc), TotalsByMonth(sc, table, l.branch));
    forall k ensures IsGap(sc, Stored(sc, table), l.branch, k)
      <==> IsReportedMonth(sc, l.branch, k) && Slot(l.branch, k) !in table && MonthStart(k) <= sc.today
    {
      SameMonths(sc, table, l.branch, k);
      assert IsReportedMonth(sc, l.branch, k) ==> MonthStartOf(k) == MonthStart(k);
    }
    forall k
      ensures HasEntry(sc, Stored(sc, table), l.branch, k) <==> HasTotal(sc, table, l.branch, k)
      ensures Slot(l.branch, k) in Stored(sc, table)
        ==> Stored(sc, table)[Slot(l.branch, k)] == table[Slot(l.branch, k)]
    {
      SameMonths(sc, table, l.branch, k);
    }
    hide Stored, IsReportedMonth, IsCovered, HasTotal, HasEntry, IsReason, IsGap, Part, RowTotal, SumOf, Axis;
  }

  lemma LineTotals(sc: Scope, ps: seq<Payment>, table: Entries, l: BranchLine)
    requires InCalendar(sc) && l.branch in sc.branches && IsBranchLine(sc, ps, table, l)
    ensures l.reason == Some(StartsMidMonth) <==> StartsLate(sc, l.branch)
    ensures l.reason == Some(BeyondPeriod) <==> !StartsLate(sc, l.branch) && ReachesBeyond(sc, table, l.branch)
    ensures l.reasonThrough.Some? <==> l.reason == Some(BeyondPeriod)
    ensures l.reasonThrough.Some? ==> IsFurthest(sc, table, l.branch, l.reasonThrough.value)
    ensures l.reason.None? ==> ShowsTotals(sc, table, l)
    ensures l.reason.Some? ==> l.yandexPay.None? && l.through == map[] && forall k :: k !in l.missing
  {
    ReasonExactly(sc, table, l.branch, l.reason, l.reasonThrough);
    if l.reason.None? {
      TotalsExactly(sc, ps, table, l);
    } else {
      hide IsReason, HasEntry, IsGap, Stored;
      assert forall k :: k !in l.through;
      MapExt(l.through, map[]);
    }
  }

  // ---------------------------------------------------------------- the month lines

  /** A month line, field by field; every total is asked on its own. */
  lemma MonthLineExactly(sc: Scope, ps: seq<Payment>, table: Entries, l: MonthLine)
    requires InCalendar(sc) && MonthOf(sc.start) <= l.month <= MonthOf(sc.end) && IsMonthLine(sc, ps, table, l)
    ensures l.cash == Part(PaidIn(sc, l.month, Cash), ps) && l.other == Part(PaidIn(sc, l.month, Elsewhere), ps)
    ensures l.revenue == l.cash + Part(PaidIn(sc, l.month, Cashless), ps) + l.other
    ensures l.yandexPay.Some? <==> exists b :: b in sc.branches && TotalFits(sc, table, b, l.month)
    ensures l.yandexPay.Some? ==> l.yandexPay.value == SumOf(FittingByBranch(sc, table, l.month))
    ensures l.cashless == Part(PaidIn(sc, l.month, Cashless), ps)
      - if l.yandexPay.Some? then l.yandexPay.value else 0
  {
    KindsAre(sc, ps, 0, l.month, Cash);
    KindsAre(sc, ps, 0, l.month, Cashless);
    KindsAre(sc, ps, 0, l.month, Elsewhere);
    ColumnIsSum(sc, table, sc.branches, l.month, FittingByBranch(sc, table, l.month));
    FittingAre(sc, table, l.month);
    hide Part, PaidIn, OfMonthKind, SumOf, FittingColumn, FittingByBranch, Stored, TotalFits, Fits;
  }

  predicate FitsStored(sc: Scope, table: Entries, b: int, k: int)
    requires InCalendar(sc)
  {
    Slot(b, k) in Stored(sc, table) && Fits(sc, k, Stored(sc, table)[Slot(b, k)])
  }

  lemma FittingAre(sc: Scope, table: Entries, k: int)
    requires InCalendar(sc) && MonthOf(sc.start) <= k
    ensures forall b | b in sc.branches :: TotalFits(sc, table, b, k) <==> FitsStored(sc, table, b, k)
  {
    forall b | b in sc.branches ensures TotalFits(sc, table, b, k) <==> FitsStored(sc, table, b, k) {
      SameMonths(sc, table, b, k);
    }
  }

  // ---------------------------------------------------------------- which branches are listed

  predicate IsReportedDay(w: Window, day: int) {
    (w.start.Some? ==> w.start.value <= day) && (w.end.Some? ==> day <= w.end.value)
  }

  /** Some day of the period is one the branch reports. */
  ghost predicate MeetsPeriod(windows: map<int, Window>, b: int, start: int, end: int) {
    b in windows ==> exists day :: start <= day <= end && IsReportedDay(windows[b], day)
  }

  lemma WindowMeets(w: Window, start: int, end: int)
    ensures w.Meets(start, end) <==> exists day :: start <= day <= end && IsReportedDay(w, day)
  {
    if w.Meets(start, end) {
      var day := if w.start.Some? && start < w.start.value then w.start.value else start;
      assert IsReportedDay(w, day);
    }
  }
}
