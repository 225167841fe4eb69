/** Revenue by payment method: what each branch line and each month line of the breakdown stands for. */
module BreakdownRules {
  import opened Wrappers
  import opened Clock
  import opened Calendar
  import opened Reporting

  /** A revenue row; amounts are kopecks, `account` is the type of the account it was paid into. */
  datatype Payment = Payment(branch: int, day: int, account: Option<int>, amount: int)

  datatype Kind = Cash | Cashless | Elsewhere

  function KindOf(p: Payment): Kind {
    if p.account == Some(0) then Cash else if p.account == Some(1) then Cashless else Elsewhere
  }

  /** A stored Yandex Pay total: the stretch from the 1st of its month through `through`. */
  datatype Entry = Entry(amount: int, through: int)

  datatype Slot = Slot(branch: int, month: int)

  type Entries = map<Slot, Entry>

  datatype Scope = Scope(start: int, end: int, today: int, windows: map<int, Window>, branches: seq<int>)

  datatype Reason = StartsMidMonth | BeyondPeriod

  datatype BranchLine = BranchLine(
    branch: int, revenue: int, cash: int, cashlessYclients: int, yandexPay: Option<int>, cashless: int, other: int,
    missing: seq<int>, through: map<int, int>, reason: Option<Reason>, reasonThrough: Option<int>)

  datatype MonthLine = MonthLine(month: int, revenue: int, cash: int, yandexPay: Option<int>, cashless: int, other: int)

  // ---------------------------------------------------------------- sums of payments

  function Part(want: Payment -> bool, ps: seq<Payment>): int {
    if ps == [] then 0
    else Part(want, ps[..|ps| - 1]) + if want(ps[|ps| - 1]) then ps[|ps| - 1].amount else 0
  }

  function SumOf(xs: seq<int>): int {
    if xs == [] then 0 else SumOf(xs[..|xs| - 1]) + xs[|xs| - 1]
  }

  lemma {:induction false} PartNone(want: Payment -> bool, ps: seq<Payment>)
    requires forall p | p in ps :: !want(p)
    ensures Part(want, ps) == 0
  {
    if ps != [] {
      PartNone(want, ps[..|ps| - 1]);
    }
  }

  function Without(whole: Payment -> bool, one: Payment -> bool): Payment -> bool {
    p => whole(p) && !one(p)
  }

  lemma {:induction false} PartRemove(whole: Payment -> bool, one: Payment -> bool, ps: seq<Payment>)
    requires forall p | p in ps && one(p) :: whole(p)
    ensures Part(whole, ps) == Part(one, ps) + Part(Without(whole, one), ps)
  {
    if ps != [] {
      PartRemove(whole, one, ps[..|ps| - 1]);
    }
  }

  /** Every payment of the whole falls in exactly one part. */
  ghost predicate Partitions(whole: Payment -> bool, parts: seq<Payment -> bool>, ps: seq<Payment>) {
    && (forall p, i | p in ps && 0 <= i < |parts| && parts[i](p) :: whole(p))
    && (forall p, i, j | p in ps && 0 <= i < j < |parts| && parts[i](p) :: !parts[j](p))
    && (forall p | p in ps && whole(p) :: exists i :: 0 <= i < |parts| && parts[i](p))
  }

  /** The parts of a partition add up to the whole. */
  lemma {:induction false} PartsAddUp(whole: Payment -> bool, parts: seq<Payment -> bool>, ps: seq<Payment>,
                                      xs: seq<int>)
    requires Partitions(whole, parts, ps)
    requires |xs| == |parts| && forall i | 0 <= i < |parts| :: xs[i] == Part(parts[i], ps)
    ensures SumOf(xs) == Part(whole, ps)
    decreases |parts|
  {
    if parts == [] {
      PartNone(whole, ps);
    } else {
      var n := |parts| - 1;
      PartRemove(whole, parts[n], ps);
      forall p | p in ps && Without(whole, parts[n])(p) ensures exists i :: 0 <= i < n && parts[..n][i](p) {
        var i :| 0 <= i < |parts| && parts[i](p);
        assert parts[..n][i](p);
      }
      PartsAddUp(Without(whole, parts[n]), parts[..n], ps, xs[..n]);
    }
  }

  // ---------------------------------------------------------------- which payments a bucket holds

  predicate Counts(sc: Scope, p: Payment) {
    p.branch in sc.branches && sc.start <= p.day <= sc.end
  }

  predicate InMonth(day: int, k: int) {
    FIRST_MONTH <= k && MonthStart(k) <= day <= MonthEnd(k)
  }

  function All(sc: Scope): Payment -> bool {
    p => Counts(sc, p)
  }

  function OfBranch(sc: Scope, b: int): Payment -> bool {
    p => Counts(sc, p) && p.branch == b
  }

  function OfMonth(sc: Scope, k: int): Payment -> bool {
    p => Counts(sc, p) && InMonth(p.day, k)
  }

  function OfBranchKind(sc: Scope, b: int, kind: Kind): Payment -> bool {
    p => Counts(sc, p) && p.branch == b && KindOf(p) == kind
  }

  function OfMonthKind(sc: Scope, k: int, kind: Kind): Payment -> bool {
    p => Counts(sc, p) && InMonth(p.day, k) && KindOf(p) == kind
  }

  function OfCell(sc: Scope, b: int, k: int, kind: Kind): Payment -> bool {
    p => Counts(sc, p) && p.branch == b && InMonth(p.day, k) && KindOf(p) == kind
  }

  /** The month axis. */
  function Axis(sc: Scope): seq<int>
    requires DATE_MIN <= sc.start && DATE_MIN <= sc.end
  {
    var (j, k) := (MonthOf(sc.start), MonthOf(sc.end));
    seq(if j <= k then k - j + 1 else 0, i => j + i)
  }

  predicate InCalendar(sc: Scope) {
    DATE_MIN <= sc.start <= sc.end <= DATE_MAX && DATE_MIN <= sc.today
    && forall i, j | 0 <= i < j < |sc.branches| :: sc.branches[i] != sc.branches[j]
  }

  /** A counted payment's month is on the axis. */
  lemma CountedMonth(sc: Scope, p: Payment) returns (i: nat)
    requires InCalendar(sc) && Counts(sc, p)
    ensures i < |Axis(sc)| && Axis(sc)[i] == MonthOf(p.day) && InMonth(p.day, Axis(sc)[i])
  {
    MonthOfMonotone(sc.start, p.day);
    MonthOfMonotone(p.day, sc.end);
    i := MonthOf(p.day) - MonthOf(sc.start);
  }

  lemma OneMonth(day: int, j: int, k: int)
    requires DATE_MIN <= day && InMonth(day, j) && InMonth(day, k)
    ensures j == k
  {
    MonthOfUnique(day, j);
    MonthOfUnique(day, k);
  }

  function Cells(sc: Scope, b: int, kind: Kind): seq<Payment -> bool>
    requires InCalendar(sc)
  {
    seq(|Axis(sc)|, i requires 0 <= i < |Axis(sc)| => OfCell(sc, b, Axis(sc)[i], kind))
  }

  /** A branch's bucket is the sum of its months. */
  lemma BranchIsSumOfMonths(sc: Scope, b: int, kind: Kind, ps: seq<Payment>, xs: seq<int>)
    requires InCalendar(sc) && |xs| == |Axis(sc)|
    requires forall i | 0 <= i < |xs| :: xs[i] == Part(OfCell(sc, b, Axis(sc)[i], kind), ps)
    ensures SumOf(xs) == Part(OfBranchKind(sc, b, kind), ps)
  {
    var parts := Cells(sc, b, kind);
    forall p | p in ps && OfBranchKind(sc, b, kind)(p) ensures exists i :: 0 <= i < |parts| && parts[i](p) {
      var i := CountedMonth(sc, p);
      assert parts[i](p);
    }
    forall p, i, j | p in ps && 0 <= i < j < |parts| && parts[i](p) ensures !parts[j](p) {
      if parts[j](p) {
        OneMonth(p.day, Axis(sc)[i], Axis(sc)[j]);
      }
    }
    PartsAddUp(OfBranchKind(sc, b, kind), parts, ps, xs);
  }

  function Column(sc: Scope, k: int, kind: Kind): seq<Payment -> bool> {
    seq(|sc.branches|, i requires 0 <= i < |sc.branches| => OfCell(sc, sc.branches[i], k, kind))
  }

  /** A month's bucket is the sum of its branches. */
  lemma MonthIsSumOfBranches(sc: Scope, k: int, kind: Kind, ps: seq<Payment>, xs: seq<int>)
    requires InCalendar(sc) && |xs| == |sc.branches|
    requires forall i | 0 <= i < |xs| :: xs[i] == Part(OfCell(sc, sc.branches[i], k, kind), ps)
    ensures SumOf(xs) == Part(OfMonthKind(sc, k, kind), ps)
  {
    var parts := Column(sc, k, kind);
    forall p | p in ps && OfMonthKind(sc, k, kind)(p) ensures exists i :: 0 <= i < |parts| && parts[i](p) {
      var i :| 0 <= i < |sc.branches| && sc.branches[i] == p.branch;
      assert parts[i](p);
    }
    PartsAddUp(OfMonthKind(sc, k, kind), parts, ps, xs);
  }

  /** Cash, cashless and other accounts of a branch are its whole revenue. */
  lemma KindsAreBranch(sc: Scope, b: int, ps: seq<Payment>)
    ensures Part(OfBranchKind(sc, b, Cash), ps) + Part(OfBranchKind(sc, b, Cashless), ps)
      + Part(OfBranchKind(sc, b, Elsewhere), ps)
      == Part(OfBranch(sc, b), ps)
  {
    var parts := [OfBranchKind(sc, b, Cash), OfBranchKind(sc, b, Cashless), OfBranchKind(sc, b, Elsewhere)];
    var xs := [Part(parts[0], ps), Part(parts[1], ps), Part(parts[2], ps)];
    forall p | p in ps && OfBranch(sc, b)(p) ensures exists i :: 0 <= i < |parts| && parts[i](p) {
      assert parts[if KindOf(p) == Cash then 0 else if KindOf(p) == Cashless then 1 else 2](p);
    }
    PartsAddUp(OfBranch(sc, b), parts, ps, xs);
    SumOfThree(xs);
  }

  lemma KindsAreMonth(sc: Scope, k: int, ps: seq<Payment>)
    ensures Part(OfMonthKind(sc, k, Cash), ps) + Part(OfMonthKind(sc, k, Cashless), ps)
      + Part(OfMonthKind(sc, k, Elsewhere), ps)
      == Part(OfMonth(sc, k), ps)
  {
    var parts := [OfMonthKind(sc, k, Cash), OfMonthKind(sc, k, Cashless), OfMonthKind(sc, k, Elsewhere)];
    var xs := [Part(parts[0], ps), Part(parts[1], ps), Part(parts[2], ps)];
    forall p | p in ps && OfMonth(sc, k)(p) ensures exists i :: 0 <= i < |parts| && parts[i](p) {
      assert parts[if KindOf(p) == Cash then 0 else if KindOf(p) == Cashless then 1 else 2](p);
    }
    PartsAddUp(OfMonth(sc, k), parts, ps, xs);
    SumOfThree(xs);
  }

  lemma SumOfThree(xs: seq<int>)
    requires |xs| == 3
    ensures SumOf(xs) == xs[0] + xs[1] + xs[2]
  {
    assert xs[..2][..1] == [xs[0]] && [xs[0]][..0] == [];
    assert SumOf([xs[0]]) == xs[0];
  }

  /** The branches' revenues, and the months' revenues, add up to all counted payments. */
  lemma BothWaysAddUp(sc: Scope, ps: seq<Payment>, byBranch: seq<int>, byMonth: seq<int>)
    requires InCalendar(sc)
    requires |byBranch| == |sc.branches|
    requires forall i | 0 <= i < |byBranch| :: byBranch[i] == Part(OfBranch(sc, sc.branches[i]), ps)
    requires |byMonth| == |Axis(sc)|
    requires forall i | 0 <= i < |byMonth| :: byMonth[i] == Part(OfMonth(sc, Axis(sc)[i]), ps)
    ensures SumOf(byBranch) == Part(All(sc), ps) == SumOf(byMonth)
  {
    var rows := seq(|sc.branches|, i requires 0 <= i < |sc.branches| => OfBranch(sc, sc.branches[i]));
    forall p | p in ps && All(sc)(p) ensures exists i :: 0 <= i < |rows| && rows[i](p) {
      var i :| 0 <= i < |sc.branches| && sc.branches[i] == p.branch;
      assert rows[i](p);
    }
    PartsAddUp(All(sc), rows, ps, byBranch);
    var cols := seq(|Axis(sc)|, i requires 0 <= i < |Axis(sc)| => OfMonth(sc, Axis(sc)[i]));
    forall p | p in ps && All(sc)(p) ensures exists i :: 0 <= i < |cols| && cols[i](p) {
      var i := CountedMonth(sc, p);
      assert cols[i](p);
    }
    forall p, i, j | p in ps && 0 <= i < j < |cols| && cols[i](p) ensures !cols[j](p) {
      if cols[j](p) {
        OneMonth(p.day, Axis(sc)[i], Axis(sc)[j]);
      }
    }
    PartsAddUp(All(sc), cols, ps, byMonth);
  }

  // ---------------------------------------------------------------- Yandex Pay totals

  predicate InWindow(sc: Scope, b: int, day: int) {
    b in sc.windows ==> sc.windows[b].Covers(day)
  }

  /**
   * `reporting_window_clause` in three-valued logic: a comparison with a missing bound is unknown, and unknown does
   * not exclude.
   */
  predicate SqlKeeps(w: Option<Window>, day: int) {
    !(w.Some? && (w.value.start.Some? || w.value.end.Some?)
      && ((w.value.start.Some? && day < w.value.start.value) || (w.value.end.Some? && w.value.end.value < day)))
  }

  /** The totals read for the period: listed branches, months of the axis, inside the branch's window. */
  function Stored(sc: Scope, table: Entries): Entries
    requires InCalendar(sc)
  {
    map s | s in table && s.branch in sc.branches && s.month in Axis(sc)
      && SqlKeeps(if s.branch in sc.windows then Some(sc.windows[s.branch]) else None, MonthEndOf(s.month)) :: table[s]
  }

  function MonthEndOf(k: int): int {
    if FIRST_MONTH <= k then MonthEnd(k) else 0
  }

  function MonthStartOf(k: int): int {
    if FIRST_MONTH <= k then MonthStart(k) else 0
  }

  predicate IsCovered(sc: Scope, b: int, k: int)
    requires InCalendar(sc)
  {
    k in Axis(sc) && InWindow(sc, b, MonthEndOf(k))
  }

  /** A stored total of a covered month. */
  predicate HasEntry(sc: Scope, stored: Entries, b: int, k: int)
    requires InCalendar(sc)
  {
    IsCovered(sc, b, k) && Slot(b, k) in stored
  }

  /** The whole stretch of a total lies inside the period. */
  predicate Fits(sc: Scope, k: int, e: Entry) {
    sc.start <= MonthStartOf(k) && e.through <= sc.end
  }

  /**
   * A branch's totals are applied exactly when no covered month starts before the period and no total reaches past it.
   */
  ghost predicate IsApplied(sc: Scope, stored: Entries, b: int)
    requires InCalendar(sc)
  {
    && (forall k | IsCovered(sc, b, k) :: sc.start <= MonthStartOf(k))
    && (forall k | HasEntry(sc, stored, b, k) :: stored[Slot(b, k)].through <= sc.end)
  }

  /** What `_unapplied_reason` answers. */
  ghost predicate IsReason(sc: Scope, stored: Entries, b: int, reason: Option<Reason>, through: Option<int>)
    requires InCalendar(sc)
  {
    && (reason.None? <==> IsApplied(sc, stored, b))
    && (reason == Some(StartsMidMonth) <==> exists k :: IsCovered(sc, b, k) && MonthStartOf(k) < sc.start)
    && (through.Some? <==> reason == Some(BeyondPeriod))
    && (through.Some? ==> sc.end < through.value && IsLatest(sc, stored, b, through.value))
  }

  ghost predicate IsLatest(sc: Scope, stored: Entries, b: int, through: int)
    requires InCalendar(sc)
  {
    && (exists k :: HasEntry(sc, stored, b, k) && stored[Slot(b, k)].through == through)
    && (forall k | HasEntry(sc, stored, b, k) :: stored[Slot(b, k)].through <= through)
  }

  /** The amount a total adds where it is counted. */
  function Amount(stored: Entries, b: int, k: int): int {
    if Slot(b, k) in stored then stored[Slot(b, k)].amount else 0
  }

  function FittingAmount(sc: Scope, stored: Entries, b: int, k: int): int {
    if Slot(b, k) in stored && Fits(sc, k, stored[Slot(b, k)]) then stored[Slot(b, k)].amount else 0
  }

  function RowTotal(stored: Entries, b: int, months: seq<int>): int {
    if months == [] then 0 else RowTotal(stored, b, months[..|months| - 1]) + Amount(stored, b, months[|months| - 1])
  }

  function FittingRow(sc: Scope, stored: Entries, b: int, months: seq<int>): int {
    if months == [] then 0
    else FittingRow(sc, stored, b, months[..|months| - 1]) + FittingAmount(sc, stored, b, months[|months| - 1])
  }

  function FittingColumn(sc: Scope, stored: Entries, branches: seq<int>, k: int): int {
    if branches == [] then 0
    else
      FittingColumn(sc, stored, branches[..|branches| - 1], k) + FittingAmount(sc, stored, branches[|branches| - 1], k)
  }

  function RowsTotal(sc: Scope, stored: Entries, branches: seq<int>, months: seq<int>): int {
    if branches == [] then 0
    else
      var n := |branches| - 1;
      RowsTotal(sc, stored, branches[..n], months) + FittingRow(sc, stored, branches[n], months)
  }

  function ColumnsTotal(sc: Scope, stored: Entries, branches: seq<int>, months: seq<int>): int {
    if months == [] then 0
    else
      var n := |months| - 1;
      ColumnsTotal(sc, stored, branches, months[..n]) + FittingColumn(sc, stored, branches, months[n])
  }

  lemma {:induction false} MoreBranches(sc: Scope, stored: Entries, branches: seq<int>, months: seq<int>)
    requires branches != []
    ensures ColumnsTotal(sc, stored, branches, months)
      == ColumnsTotal(sc, stored, branches[..|branches| - 1], months)
        + FittingRow(sc, stored, branches[|branches| - 1], months)
  {
    if months != [] {
      MoreBranches(sc, stored, branches, months[..|months| - 1]);
    }
  }

  lemma {:induction false} RowsAreColumns(sc: Scope, stored: Entries, branches: seq<int>, months: seq<int>)
    ensures RowsTotal(sc, stored, branches, months) == ColumnsTotal(sc, stored, branches, months)
  {
    if branches == [] {
      NoColumns(sc, stored, months);
    } else {
      RowsAreColumns(sc, stored, branches[..|branches| - 1], months);
      MoreBranches(sc, stored, branches, months);
    }
  }

  lemma {:induction false} NoColumns(sc: Scope, stored: Entries, months: seq<int>)
    ensures ColumnsTotal(sc, stored, [], months) == 0
  {
    if months != [] {
      NoColumns(sc, stored, months[..|months| - 1]);
    }
  }

  /** Where a branch's totals are applied, each of them fits, so the branch's sum is the sum of what fits. */
  lemma {:induction false} AppliedFits(sc: Scope, table: Entries, b: int, months: seq<int>)
    requires InCalendar(sc) && IsApplied(sc, Stored(sc, table), b) && forall k | k in months :: k in Axis(sc)
    ensures RowTotal(Stored(sc, table), b, months) == FittingRow(sc, Stored(sc, table), b, months)
  {
    if months != [] {
      AppliedFits(sc, table, b, months[..|months| - 1]);
      var k := months[|months| - 1];
      assert k in months;
      if Slot(b, k) in Stored(sc, table) {
        assert IsCovered(sc, b, k) && HasEntry(sc, Stored(sc, table), b, k);
      }
    }
  }

  /** An applied total covers no day outside the period. */
  lemma AppliedStretchInside(sc: Scope, stored: Entries, b: int, k: int, day: int)
    requires InCalendar(sc) && IsApplied(sc, stored, b) && HasEntry(sc, stored, b, k)
    requires MonthStartOf(k) <= day <= stored[Slot(b, k)].through
    ensures sc.start <= day <= sc.end
  {
    assert IsCovered(sc, b, k);
  }

  /** Only the first month of the axis can start before the period, so that is all the first rule asks. */
  lemma AppliedExactly(sc: Scope, stored: Entries, b: int)
    requires InCalendar(sc)
    ensures IsApplied(sc, stored, b) <==>
      && (sc.start == MonthStart(MonthOf(sc.start)) || !IsCovered(sc, b, MonthOf(sc.start)))
      && (forall k | HasEntry(sc, stored, b, k) :: stored[Slot(b, k)].through <= sc.end)
  {
    var first := MonthOf(sc.start);
    MonthOfMonotone(sc.start, sc.end);
    assert Axis(sc)[0] == first;
    forall k | IsCovered(sc, b, k) && k != first ensures sc.start <= MonthStartOf(k) {
      MonthsOrdered(first, k);
    }
  }

  // ---------------------------------------------------------------- the two tables

  ghost predicate IsBranchLine(sc: Scope, ps: seq<Payment>, table: Entries, l: BranchLine)
    requires InCalendar(sc)
  {
    var stored := Stored(sc, table);
    && l.cash == Part(OfBranchKind(sc, l.branch, Cash), ps)
    && l.other == Part(OfBranchKind(sc, l.branch, Elsewhere), ps)
    && l.cashlessYclients == Part(OfBranchKind(sc, l.branch, Cashless), ps)
    && l.revenue == l.cash + l.cashlessYclients + l.other && l.cashless == l.cashlessYclients - l.yandexPay.GetOr(0)
    && IsReason(sc, stored, l.branch, l.reason, l.reasonThrough)
    && (l.yandexPay.Some? <==> l.reason.None? && exists k :: HasEntry(sc, stored, l.branch, k))
    && (l.yandexPay.Some? ==> l.yandexPay.value == RowTotal(stored, l.branch, Axis(sc)))
    && (forall k :: k in l.through <==> l.reason.None? && HasEntry(sc, stored, l.branch, k))
    && (forall k | k in l.through :: l.through[k] == stored[Slot(l.branch, k)].through)
    && (forall k :: k in l.missing <==> l.reason.None? && IsGap(sc, stored, l.branch, k)) && InOrder(l.missing)
  }

  predicate InOrder(s: seq<int>) {
    forall i, j | 0 <= i < j < |s| :: s[i] < s[j]
  }

  /** A covered month that has started and has no total. */
  predicate IsGap(sc: Scope, stored: Entries, b: int, k: int)
    requires InCalendar(sc)
  {
    IsCovered(sc, b, k) && Slot(b, k) !in stored && MonthStartOf(k) <= sc.today
  }

  ghost predicate IsMonthLine(sc: Scope, ps: seq<Payment>, table: Entries, l: MonthLine)
    requires InCalendar(sc)
  {
    var stored := Stored(sc, table);
    && l.cash == Part(OfMonthKind(sc, l.month, Cash), ps) && l.other == Part(OfMonthKind(sc, l.month, Elsewhere), ps)
    && l.revenue == l.cash + Part(OfMonthKind(sc, l.month, Cashless), ps) + l.other
    && l.cashless == Part(OfMonthKind(sc, l.month, Cashless), ps) - l.yandexPay.GetOr(0)
    && l.yandexPay.GetOr(0) == FittingColumn(sc, stored, sc.branches, l.month)
    && (l.yandexPay.Some? <==> exists b ::
         b in sc.branches && Slot(b, l.month) in stored && Fits(sc, l.month, stored[Slot(b, l.month)]))
  }

  ghost predicate IsBreakdown(sc: Scope, ps: seq<Payment>, table: Entries, lines: seq<BranchLine>,
                              monthly: seq<MonthLine>)
    requires InCalendar(sc)
  {
    && |lines| == |sc.branches|
    && (forall i | 0 <= i < |lines| :: lines[i].branch == sc.branches[i] && IsBranchLine(sc, ps, table, lines[i]))
    && |monthly| == |Axis(sc)|
    && (forall i | 0 <= i < |monthly| :: monthly[i].month == Axis(sc)[i] && IsMonthLine(sc, ps, table, monthly[i]))
  }

  function Revenues(lines: seq<BranchLine>): seq<int> {
    seq(|lines|, i requires 0 <= i < |lines| => lines[i].revenue)
  }

  function MonthRevenues(monthly: seq<MonthLine>): seq<int> {
    seq(|monthly|, i requires 0 <= i < |monthly| => monthly[i].revenue)
  }

  /**
   * No kopeck is lost or made: each line's parts add up to its payments, and both tables add up to all payments of the
   * period.
   */
  lemma BreakdownConserves(sc: Scope, ps: seq<Payment>, table: Entries, lines: seq<BranchLine>, monthly: seq<MonthLine>)
    requires InCalendar(sc) && IsBreakdown(sc, ps, table, lines, monthly)
    ensures forall l | l in lines ::
      l.cash + l.cashless + l.yandexPay.GetOr(0) + l.other == l.revenue == Part(OfBranch(sc, l.branch), ps)
    ensures forall l | l in monthly ::
      l.cash + l.cashless + l.yandexPay.GetOr(0) + l.other == l.revenue == Part(OfMonth(sc, l.month), ps)
    ensures SumOf(Revenues(lines)) == Part(All(sc), ps) == SumOf(MonthRevenues(monthly))
  {
    forall l | l in lines ensures l.revenue == Part(OfBranch(sc, l.branch), ps) {
      KindsAreBranch(sc, l.branch, ps);
    }
    forall l | l in monthly ensures l.revenue == Part(OfMonth(sc, l.month), ps) {
      KindsAreMonth(sc, l.month, ps);
    }
    BothWaysAddUp(sc, ps, Revenues(lines), MonthRevenues(monthly));
  }

  function TablePay(lines: seq<BranchLine>): int {
    if lines == [] then 0 else TablePay(lines[..|lines| - 1]) + lines[|lines| - 1].yandexPay.GetOr(0)
  }

  function MonthlyPay(monthly: seq<MonthLine>): int {
    if monthly == [] then 0 else MonthlyPay(monthly[..|monthly| - 1]) + monthly[|monthly| - 1].yandexPay.GetOr(0)
  }

  function UnappliedRow(sc: Scope, stored: Entries, l: BranchLine, months: seq<int>): int {
    if l.reason.None? then 0 else FittingRow(sc, stored, l.branch, months)
  }

  /** What single months of branches that are not applied add to the monthly line. */
  function UnappliedPay(sc: Scope, stored: Entries, lines: seq<BranchLine>, months: seq<int>): int {
    if lines == [] then 0
    else UnappliedPay(sc, stored, lines[..|lines| - 1], months) + UnappliedRow(sc, stored, lines[|lines| - 1], months)
  }

  lemma {:induction false} TableIsRows(sc: Scope, ps: seq<Payment>, table: Entries, lines: seq<BranchLine>)
    requires InCalendar(sc) && |lines| <= |sc.branches|
    requires forall i | 0 <= i < |lines| :: lines[i].branch == sc.branches[i] && IsBranchLine(sc, ps, table, lines[i])
    ensures TablePay(lines) + UnappliedPay(sc, Stored(sc, table), lines, Axis(sc))
      == RowsTotal(sc, Stored(sc, table), sc.branches[..|lines|], Axis(sc))
  {
    if lines != [] {
      var n := |lines| - 1;
      TableIsRows(sc, ps, table, lines[..n]);
      assert sc.branches[..n + 1][..n] == sc.branches[..n];
      if lines[n].reason.None? {
        AppliedFits(sc, table, lines[n].branch, Axis(sc));
        if lines[n].yandexPay.None? {
          EmptyRow(sc, table, lines[n].branch, Axis(sc));
        }
      }
    }
  }

  lemma {:induction false} EmptyRow(sc: Scope, table: Entries, b: int, months: seq<int>)
    requires InCalendar(sc) && !(exists k :: HasEntry(sc, Stored(sc, table), b, k))
    requires forall k | k in months :: k in Axis(sc)
    ensures FittingRow(sc, Stored(sc, table), b, months) == 0
  {
    if months != [] {
      EmptyRow(sc, table, b, months[..|months| - 1]);
      var k := months[|months| - 1];
      assert k in months && (Slot(b, k) in Stored(sc, table) ==> HasEntry(sc, Stored(sc, table), b, k));
    }
  }

  lemma {:induction false} MonthlyIsColumns(sc: Scope, ps: seq<Payment>, table: Entries, monthly: seq<MonthLine>)
    requires InCalendar(sc) && |monthly| <= |Axis(sc)|
    requires forall i | 0 <= i < |monthly| :: monthly[i].month == Axis(sc)[i] && IsMonthLine(sc, ps, table, monthly[i])
    ensures MonthlyPay(monthly) == ColumnsTotal(sc, Stored(sc, table), sc.branches, Axis(sc)[..|monthly|])
  {
    if monthly != [] {
      var n := |monthly| - 1;
      MonthlyIsColumns(sc, ps, table, monthly[..n]);
      assert Axis(sc)[..n + 1][..n] == Axis(sc)[..n];
    }
  }

  /** The monthly Yandex Pay exceeds the table's exactly by the months that fit of branches the table does not apply. */
  lemma MonthlyPayIsTablePay(sc: Scope, ps: seq<Payment>, table: Entries, lines: seq<BranchLine>,
                             monthly: seq<MonthLine>)
    requires InCalendar(sc) && IsBreakdown(sc, ps, table, lines, monthly)
    ensures MonthlyPay(monthly) == TablePay(lines) + UnappliedPay(sc, Stored(sc, table), lines, Axis(sc))
    ensures (forall l | l in lines :: l.reason.None?) ==> MonthlyPay(monthly) == TablePay(lines)
  {
    TableIsRows(sc, ps, table, lines);
    MonthlyIsColumns(sc, ps, table, monthly);
    assert sc.branches[..|lines|] == sc.branches && Axis(sc)[..|monthly|] == Axis(sc);
    RowsAreColumns(sc, Stored(sc, table), sc.branches, Axis(sc));
    if forall l | l in lines :: l.reason.None? {
      AllApplied(sc, Stored(sc, table), lines, Axis(sc));
    }
  }

  lemma {:induction false} AllApplied(sc: Scope, stored: Entries, lines: seq<BranchLine>, months: seq<int>)
    requires forall l | l in lines :: l.reason.None?
    ensures UnappliedPay(sc, stored, lines, months) == 0
  {
    if lines != [] {
      AllApplied(sc, stored, lines[..|lines| - 1], months);
    }
  }
}
