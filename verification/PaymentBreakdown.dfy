/** The payment breakdown computed row by row, branch by branch and month by month. */
module PaymentBreakdown {
  import opened Wrappers
  import opened Clock
  import opened Calendar
  import opened BreakdownRules
  import BreakdownOutcome
  import opened Reporting
  import Periods

  datatype Buckets = Buckets(cash: int, cashless: int, other: int) {

    function Of(kind: Kind): int {
      match kind
      case Cash => cash
      case Cashless => cashless
      case Elsewhere => other
    }

    function Add(kind: Kind, amount: int): Buckets {
      match kind
      case Cash => this.(cash := cash + amount)
      case Cashless => this.(cashless := cashless + amount)
      case Elsewhere => this.(other := other + amount)
    }

    function Plus(b: Buckets): Buckets {
      Buckets(cash + b.cash, cashless + b.cashless, other + b.other)
    }
  }

  const EMPTY := Buckets(0, 0, 0)

  function At<K>(m: map<K, Buckets>, k: K): Buckets {
    if k in m then m[k] else EMPTY
  }

  // ---------------------------------------------------------------- buckets

  /** `fetch_revenue_by_account_type` by month: the rows of the period, added up by branch, month and account type. */
  method BucketByMonth(sc: Scope, ps: seq<Payment>) returns (byMonth: map<Slot, Buckets>)
    requires InCalendar(sc)
    ensures forall s | s in byMonth :: s.branch in sc.branches && s.month in Axis(sc)
    ensures forall b, k, kind :: At(byMonth, Slot(b, k)).Of(kind) == Part(OfCell(sc, b, k, kind), ps)
  {
    byMonth := map[];
    for i := 0 to |ps|
      invariant forall s | s in byMonth :: s.branch in sc.branches && s.month in Axis(sc)
      invariant forall b, k, kind :: At(byMonth, Slot(b, k)).Of(kind) == Part(OfCell(sc, b, k, kind), ps[..i])
    {
      var p := ps[i];
      assert ps[..i + 1][..i] == ps[..i];
      if Counts(sc, p) {
        var s := Slot(p.branch, MonthOf(p.day));
        ghost var m := CountedMonth(sc, p);
        forall k | InMonth(p.day, k) ensures k == s.month {
          OneMonth(p.day, k, s.month);
        }
        byMonth := byMonth[s := At(byMonth, s).Add(KindOf(p), p.amount)];
      }
    }
    assert ps[..|ps|] == ps;
  }

  /** What the slots gone through so far hold for one branch, month by month. */
  function SeenSum(byMonth: map<Slot, Buckets>, seen: seq<Slot>, b: int, kind: Kind, months: seq<int>): int {
    if months == [] then 0
    else
      var s := Slot(b, months[|months| - 1]);
      SeenSum(byMonth, seen, b, kind, months[..|months| - 1]) + (if s in seen then At(byMonth, s).Of(kind) else 0)
  }

  lemma {:induction false} SeenMore(byMonth: map<Slot, Buckets>, seen: seq<Slot>, s: Slot, b: int, kind: Kind,
                                    months: seq<int>)
    requires s !in seen && forall i, j | 0 <= i < j < |months| :: months[i] != months[j]
    ensures SeenSum(byMonth, seen + [s], b, kind, months) == SeenSum(byMonth, seen, b, kind, months)
      + if s.branch == b && s.month in months then At(byMonth, s).Of(kind) else 0
  {
    if months != [] {
      var n := |months| - 1;
      SeenMore(byMonth, seen, s, b, kind, months[..n]);
      assert forall k | k in months[..n] :: k != months[n];
      assert months == months[..n] + [months[n]];
    }
  }

  lemma {:induction false} SeenNone(byMonth: map<Slot, Buckets>, b: int, kind: Kind, months: seq<int>)
    ensures SeenSum(byMonth, [], b, kind, months) == 0
  {
    if months != [] {
      SeenNone(byMonth, b, kind, months[..|months| - 1]);
    }
  }

  lemma {:induction false} SeenAll(byMonth: map<Slot, Buckets>, seen: seq<Slot>, b: int, kind: Kind, months: seq<int>,
                                   xs: seq<int>)
    requires forall s :: s in seen <==> s in byMonth
    requires |xs| == |months| && forall i | 0 <= i < |xs| :: xs[i] == At(byMonth, Slot(b, months[i])).Of(kind)
    ensures SeenSum(byMonth, seen, b, kind, months) == SumOf(xs)
  {
    if months != [] {
      var n := |months| - 1;
      SeenAll(byMonth, seen, b, kind, months[..n], xs[..n]);
      assert Slot(b, months[n]) in seen <==> Slot(b, months[n]) in byMonth;
    }
  }

  lemma OneMoreSlot(sc: Scope, byMonth: map<Slot, Buckets>, seen: seq<Slot>, s: Slot, byType: map<int, Buckets>)
    requires InCalendar(sc) && s in byMonth && s.month in Axis(sc) && s !in seen
    requires forall b, kind :: At(byType, b).Of(kind) == SeenSum(byMonth, seen, b, kind, Axis(sc))
    ensures var more := byType[s.branch := At(byType, s.branch).Plus(byMonth[s])];
      forall b, kind :: At(more, b).Of(kind) == SeenSum(byMonth, seen + [s], b, kind, Axis(sc))
  {
    hide SeenSum;
    var more := byType[s.branch := At(byType, s.branch).Plus(byMonth[s])];
    forall b, kind ensures At(more, b).Of(kind) == SeenSum(byMonth, seen + [s], b, kind, Axis(sc)) {
      assert At(byType, b).Of(kind) == SeenSum(byMonth, seen, b, kind, Axis(sc));
      SeenMore(byMonth, seen, s, b, kind, Axis(sc));
    }
  }

  /** The period buckets are the sums of the months. */
  method BucketByBranch(sc: Scope, byMonth: map<Slot, Buckets>, ghost ps: seq<Payment>)
    returns (byType: map<int, Buckets>)
    requires InCalendar(sc)
    requires forall s | s in byMonth :: s.branch in sc.branches && s.month in Axis(sc)
    requires forall b, k, kind :: At(byMonth, Slot(b, k)).Of(kind) == Part(OfCell(sc, b, k, kind), ps)
    ensures forall b, kind :: At(byType, b).Of(kind) == Part(OfBranchKind(sc, b, kind), ps)
  {
    hide Part, OfCell, OfBranchKind;
    var slots := Elements(byMonth.Keys);
    byType := map[];
    forall b, kind ensures SeenSum(byMonth, [], b, kind, Axis(sc)) == 0 {
      SeenNone(byMonth, b, kind, Axis(sc));
    }
    for i := 0 to |slots|
      invariant forall b, kind :: At(byType, b).Of(kind) == SeenSum(byMonth, slots[..i], b, kind, Axis(sc))
    {
      hide SeenSum, Axis;
      var s := slots[i];
      assert s in slots && s !in slots[..i] && slots[..i + 1] == slots[..i] + [s];
      OneMoreSlot(sc, byMonth, slots[..i], s, byType);
      byType := byType[s.branch := At(byType, s.branch).Plus(byMonth[s])];
    }
    assert slots[..|slots|] == slots;
    forall b, kind ensures At(byType, b).Of(kind) == Part(OfBranchKind(sc, b, kind), ps) {
      SeenIsBranch(sc, byMonth, slots, b, kind, ps);
    }
  }

  lemma SeenIsBranch(sc: Scope, byMonth: map<Slot, Buckets>, slots: seq<Slot>, b: int, kind: Kind, ps: seq<Payment>)
    requires InCalendar(sc) && forall s :: s in slots <==> s in byMonth
    requires forall b, k, kind :: At(byMonth, Slot(b, k)).Of(kind) == Part(OfCell(sc, b, k, kind), ps)
    ensures SeenSum(byMonth, slots, b, kind, Axis(sc)) == Part(OfBranchKind(sc, b, kind), ps)
  {
    hide SeenSum, Part;
    var xs := seq(|Axis(sc)|, j requires 0 <= j < |Axis(sc)| => At(byMonth, Slot(b, Axis(sc)[j])).Of(kind));
    SeenAll(byMonth, slots, b, kind, Axis(sc), xs);
    BranchIsSumOfMonths(sc, b, kind, ps, xs);
  }

  // ---------------------------------------------------------------- a branch's line

  function LatestBeyond(end: int, covered: seq<int>, entries: map<int, Entry>): Option<int> {
    if covered == [] then None
    else
      var rest := LatestBeyond(end, covered[..|covered| - 1], entries);
      var k := covered[|covered| - 1];
      if k in entries && end < entries[k].through && (rest.None? || rest.value < entries[k].through)
        then Some(entries[k].through)
      else rest
  }

  lemma {:induction false} LatestIsMax(end: int, covered: seq<int>, entries: map<int, Entry>)
    ensures var r := LatestBeyond(end, covered, entries);
      && (r.None? <==> forall k | k in covered && k in entries :: entries[k].through <= end)
      && (r.Some? ==> end < r.value && exists k :: k in covered && k in entries && entries[k].through == r.value)
      && (r.Some? ==> forall k | k in covered && k in entries :: entries[k].through <= r.value)
  {
    if covered != [] {
      var n := |covered| - 1;
      LatestIsMax(end, covered[..n], entries);
      assert covered == covered[..n] + [covered[n]];
      assert covered[n] in covered;
    }
  }

  /** `_unapplied_reason`. */
  function UnappliedReason(sc: Scope, covered: seq<int>, entries: map<int, Entry>): (r: (Option<Reason>, Option<int>))
  {
    if exists k :: k in covered && MonthStartOf(k) < sc.start then (Some(StartsMidMonth), None)
    else
      var beyond := LatestBeyond(sc.end, covered, entries);
      if beyond.Some? then (Some(BeyondPeriod), beyond) else (None, None)
  }

  ghost predicate AreEntries(sc: Scope, stored: Entries, b: int, covered: seq<int>, entries: map<int, Entry>)
    requires InCalendar(sc)
  {
    && (forall k :: k in covered <==> IsCovered(sc, b, k)) && InOrder(covered)
    && (forall k :: k in entries <==> HasEntry(sc, stored, b, k))
    && (forall k | k in entries :: entries[k] == stored[Slot(b, k)])
  }

  lemma ReasonIsRight(sc: Scope, stored: Entries, b: int, covered: seq<int>, entries: map<int, Entry>)
    requires InCalendar(sc) && AreEntries(sc, stored, b, covered, entries)
    ensures IsReason(sc, stored, b, UnappliedReason(sc, covered, entries).0, UnappliedReason(sc, covered, entries).1)
  {
    hide LatestBeyond;
    LatestIsMax(sc.end, covered, entries);
    if exists k :: k in covered && MonthStartOf(k) < sc.start {
      var k :| k in covered && MonthStartOf(k) < sc.start;
      assert IsCovered(sc, b, k);
    } else {
      assert forall k | HasEntry(sc, stored, b, k) :: k in covered && k in entries;
    }
  }

  /** The covered months of a branch, in order, and the totals stored for them. */
  method ReadEntries(sc: Scope, stored: Entries, b: int) returns (covered: seq<int>, entries: map<int, Entry>)
    requires InCalendar(sc)
    ensures AreEntries(sc, stored, b, covered, entries)
  {
    covered, entries := [], map[];
    var axis := Axis(sc);
    for i := 0 to |axis|
      invariant forall k :: k in covered <==> k in axis[..i] && IsCovered(sc, b, k)
      invariant InOrder(covered) && forall k | k in covered && i < |axis| :: k < axis[i]
      invariant forall k :: k in entries <==> k in axis[..i] && HasEntry(sc, stored, b, k)
      invariant forall k | k in entries :: entries[k] == stored[Slot(b, k)]
    {
      var k := axis[i];
      assert k in axis && axis[..i + 1] == axis[..i] + [k];
      if IsCovered(sc, b, k) {
        assert forall j | 0 <= j < |covered| :: covered[j] in covered;
        covered := covered + [k];
        if Slot(b, k) in stored {
          entries := entries[k := stored[Slot(b, k)]];
        }
      }
    }
    assert axis[..|axis|] == axis;
  }

  /** What an applied branch reports: the sum of its totals, its gaps in order, and how far each total reaches. */
  ghost predicate IsApplication(sc: Scope, table: Entries, b: int, pay: Option<int>, missing: seq<int>,
                                through: map<int, int>)
    requires InCalendar(sc)
  {
    var stored := Stored(sc, table);
    && (pay.Some? <==> exists k :: HasEntry(sc, stored, b, k))
    && (pay.Some? ==> pay.value == RowTotal(stored, b, Axis(sc)))
    && InOrder(missing) && (forall k :: k in missing <==> IsGap(sc, stored, b, k))
    && (forall k :: k in through <==> HasEntry(sc, stored, b, k))
    && (forall k | k in through :: through[k] == stored[Slot(b, k)].through)
  }

  /** A branch whose totals apply: their sum, the months without one, and how far each reaches. */
  method ApplyEntries(sc: Scope, table: Entries, b: int, covered: seq<int>, entries: map<int, Entry>)
    returns (pay: Option<int>, missing: seq<int>, through: map<int, int>)
    requires InCalendar(sc) && AreEntries(sc, Stored(sc, table), b, covered, entries)
    ensures IsApplication(sc, table, b, pay, missing, through)
  {
    EntriesOnAxis(sc, table, b, covered, entries);
    assert InOrder(covered) && forall k :: k in entries <==> HasEntry(sc, Stored(sc, table), b, k);
    hide Stored, Axis, IsCovered, AreEntries, HasEntry, IsGap, IsApplication;
    missing := FindGaps(sc, covered, entries);
    through := map k | k in entries :: entries[k].through;
    pay := SumEntries(Stored(sc, table), b, Axis(sc), entries);
    AreApplied(sc, table, b, covered, entries, pay, missing, through);
  }

  /** The covered months that have started and have no total, in order. */
  method FindGaps(sc: Scope, covered: seq<int>, entries: map<int, Entry>) returns (missing: seq<int>)
    requires InOrder(covered)
    ensures InOrder(missing)
    ensures forall k :: k in missing <==> k in covered && k !in entries && MonthStartOf(k) <= sc.today
  {
    missing := [];
    for i := 0 to |covered|
      invariant forall k :: k in missing <==> k in covered[..i] && k !in entries && MonthStartOf(k) <= sc.today
      invariant InOrder(missing) && forall k | k in missing && i < |covered| :: k < covered[i]
    {
      assert forall j | 0 <= j < |missing| :: missing[j] in missing;
      assert covered[..i + 1] == covered[..i] + [covered[i]];
      if covered[i] !in entries && MonthStartOf(covered[i]) <= sc.today {
        missing := missing + [covered[i]];
      }
    }
    assert covered[..|covered|] == covered;
  }

  lemma AreApplied(sc: Scope, table: Entries, b: int, covered: seq<int>, entries: map<int, Entry>,
                   pay: Option<int>, missing: seq<int>, through: map<int, int>)
    requires InCalendar(sc) && AreEntries(sc, Stored(sc, table), b, covered, entries)
    requires pay.Some? <==> exists k :: k in Axis(sc) && k in entries
    requires pay.Some? ==> pay.value == RowTotal(Stored(sc, table), b, Axis(sc))
    requires InOrder(missing) && forall k ::
      k in missing <==> k in covered && k !in entries && MonthStartOf(k) <= sc.today
    requires (forall k :: k in through <==> k in entries) && forall k | k in entries :: through[k] == entries[k].through
    ensures IsApplication(sc, table, b, pay, missing, through)
  {
    hide Stored, RowTotal;
    forall k ensures k in missing <==> IsGap(sc, Stored(sc, table), b, k) {
      assert k in covered <==> IsCovered(sc, b, k);
      assert k in entries <==> HasEntry(sc, Stored(sc, table), b, k);
    }
    forall k ensures k in Axis(sc) && k in entries <==> HasEntry(sc, Stored(sc, table), b, k) {
      assert k in entries <==> HasEntry(sc, Stored(sc, table), b, k);
    }
  }

  method SumEntries(ghost stored: Entries, b: int, axis: seq<int>, entries: map<int, Entry>) returns (pay: Option<int>)
    requires forall k | k in axis :: k in entries <==> Slot(b, k) in stored
    requires forall k | k in axis && k in entries :: entries[k] == stored[Slot(b, k)]
    ensures pay.Some? <==> exists k :: k in axis && k in entries
    ensures pay.Some? ==> pay.value == RowTotal(stored, b, axis)
  {
    var sum, some := 0, false;
    for i := 0 to |axis|
      invariant sum == RowTotal(stored, b, axis[..i])
      invariant some <==> exists k :: k in axis[..i] && k in entries
    {
      var k := axis[i];
      assert k in axis && axis[..i + 1] == axis[..i] + [k] && axis[..i + 1][..i] == axis[..i];
      assert k in axis[..i + 1] && forall a | a in axis[..i] :: a in axis[..i + 1];
      if k in entries {
        sum, some := sum + entries[k].amount, true;
      }
    }
    assert axis[..|axis|] == axis;
    pay := if some then Some(sum) else None;
  }

  lemma EntriesOnAxis(sc: Scope, table: Entries, b: int, covered: seq<int>, entries: map<int, Entry>)
    requires InCalendar(sc) && AreEntries(sc, Stored(sc, table), b, covered, entries)
    ensures forall k | k in Axis(sc) :: k in entries <==> Slot(b, k) in Stored(sc, table)
    ensures forall k | k in entries :: k in Axis(sc)
  {
    forall k | k in Axis(sc) ensures k in entries <==> Slot(b, k) in Stored(sc, table) {
      assert k in entries <==> HasEntry(sc, Stored(sc, table), b, k);
    }
  }

  function LineOf(b: int, sums: Buckets, pay: Option<int>, missing: seq<int>, through: map<int, int>,
                  reason: Option<Reason>, beyond: Option<int>): BranchLine {
    BranchLine(b, sums.cash + sums.cashless + sums.other, sums.cash, sums.cashless, pay,
               sums.cashless - pay.GetOr(0), sums.other,
               missing, through, reason, beyond)
  }

  /** A branch line is its bucket sums, its reason, and its totals where there is no reason. */
  lemma LineIsBranchLine(sc: Scope, ps: seq<Payment>, table: Entries, l: BranchLine, sums: Buckets)
    requires InCalendar(sc)
    requires l == LineOf(l.branch, sums, l.yandexPay, l.missing, l.through, l.reason, l.reasonThrough)
    requires forall kind :: sums.Of(kind) == Part(OfBranchKind(sc, l.branch, kind), ps)
    requires IsReason(sc, Stored(sc, table), l.branch, l.reason, l.reasonThrough)
    requires if l.reason.None? then IsApplication(sc, table, l.branch, l.yandexPay, l.missing, l.through)
             else l.yandexPay == None && l.missing == [] && l.through == map[]
    ensures IsBranchLine(sc, ps, table, l)
  {
    assert sums.Of(Cash) == sums.cash && sums.Of(Cashless) == sums.cashless && sums.Of(Elsewhere) == sums.other;
    hide Stored, IsReason, HasEntry, IsGap, Part, OfBranchKind, RowTotal, Axis;
  }

  method MakeBranchLine(sc: Scope, ghost ps: seq<Payment>, table: Entries, stored: Entries, byType: map<int, Buckets>,
                        b: int)
    returns (l: BranchLine)
    requires InCalendar(sc) && stored == Stored(sc, table)
    requires forall b, kind :: At(byType, b).Of(kind) == Part(OfBranchKind(sc, b, kind), ps)
    ensures l.branch == b && IsBranchLine(sc, ps, table, l)
  {
    hide *;
    var covered, entries := ReadEntries(sc, stored, b);
    var (reason, beyond) := UnappliedReason(sc, covered, entries);
    ReasonIsRight(sc, stored, b, covered, entries);
    var pay: Option<int>, missing: seq<int>, through: map<int, int> := None, [], map[];
    if reason.None? {
      pay, missing, through := ApplyEntries(sc, table, b, covered, entries);
    }
    l := LineOf(b, At(byType, b), pay, missing, through, reason, beyond);
    LineFields(b, At(byType, b), pay, missing, through, reason, beyond);
    LineIsBranchLine(sc, ps, table, l, At(byType, b));
  }

  lemma LineFields(b: int, sums: Buckets, pay: Option<int>, missing: seq<int>, through: map<int, int>,
                   reason: Option<Reason>, beyond: Option<int>)
    ensures var l := LineOf(b, sums, pay, missing, through, reason, beyond);
      && l.branch == b && l.yandexPay == pay && l.missing == missing && l.through == through
      && l.reason == reason && l.reasonThrough == beyond
  {
  }

  // ---------------------------------------------------------------- a month's line

  function ColumnSum(byMonth: map<Slot, Buckets>, branches: seq<int>, k: int, kind: Kind): int {
    if branches == [] then 0
    else
      var n := |branches| - 1;
      ColumnSum(byMonth, branches[..n], k, kind) + At(byMonth, Slot(branches[n], k)).Of(kind)
  }

  lemma {:induction false} ColumnIsSum(byMonth: map<Slot, Buckets>, branches: seq<int>, k: int, kind: Kind,
                                       xs: seq<int>)
    requires |xs| == |branches| && forall i | 0 <= i < |xs| :: xs[i] == At(byMonth, Slot(branches[i], k)).Of(kind)
    ensures ColumnSum(byMonth, branches, k, kind) == SumOf(xs)
  {
    if branches != [] {
      ColumnIsSum(byMonth, branches[..|branches| - 1], k, kind, xs[..|xs| - 1]);
    }
  }

  lemma ColumnIsMonth(sc: Scope, ps: seq<Payment>, byMonth: map<Slot, Buckets>, k: int, kind: Kind)
    requires InCalendar(sc)
    requires forall b, k, kind :: At(byMonth, Slot(b, k)).Of(kind) == Part(OfCell(sc, b, k, kind), ps)
    ensures ColumnSum(byMonth, sc.branches, k, kind) == Part(OfMonthKind(sc, k, kind), ps)
  {
    var xs := seq(|sc.branches|, i requires 0 <= i < |sc.branches| => At(byMonth, Slot(sc.branches[i], k)).Of(kind));
    ColumnIsSum(byMonth, sc.branches, k, kind, xs);
    MonthIsSumOfBranches(sc, k, kind, ps, xs);
  }

  method MakeMonthLine(sc: Scope, ghost ps: seq<Payment>, table: Entries, stored: Entries, byMonth: map<Slot, Buckets>,
                       k: int)
    returns (l: MonthLine)
    requires InCalendar(sc) && stored == Stored(sc, table)
    requires forall b, k, kind :: At(byMonth, Slot(b, k)).Of(kind) == Part(OfCell(sc, b, k, kind), ps)
    ensures l.month == k && IsMonthLine(sc, ps, table, l)
  {
    var sums := EMPTY;
    for i := 0 to |sc.branches|
      invariant forall kind :: sums.Of(kind) == ColumnSum(byMonth, sc.branches[..i], k, kind)
    {
      assert sc.branches[..i + 1][..i] == sc.branches[..i];
      sums := sums.Plus(At(byMonth, Slot(sc.branches[i], k)));
    }
    assert sc.branches[..|sc.branches|] == sc.branches;
    ColumnIsMonth(sc, ps, byMonth, k, Cash);
    ColumnIsMonth(sc, ps, byMonth, k, Cashless);
    ColumnIsMonth(sc, ps, byMonth, k, Elsewhere);
    assert sums.cash == sums.Of(Cash) && sums.cashless == sums.Of(Cashless) && sums.other == sums.Of(Elsewhere);
    var pay := FitEntries(sc, stored, k);
    hide ColumnSum, Part, OfMonthKind;
    l := MonthLine(k, sums.cash + sums.cashless + sums.other, sums.cash, pay, sums.cashless - pay.GetOr(0), sums.other);
  }

  /** The totals of one month that fit the period, each asked on its own. */
  method FitEntries(sc: Scope, stored: Entries, k: int) returns (pay: Option<int>)
    ensures pay.GetOr(0) == FittingColumn(sc, stored, sc.branches, k)
    ensures pay.Some? <==> exists b :: b in sc.branches && Slot(b, k) in stored && Fits(sc, k, stored[Slot(b, k)])
  {
    pay := None;
    for i := 0 to |sc.branches|
      invariant pay.GetOr(0) == FittingColumn(sc, stored, sc.branches[..i], k)
      invariant pay.Some?
        <==> exists b :: b in sc.branches[..i] && Slot(b, k) in stored && Fits(sc, k, stored[Slot(b, k)])
    {
      var b := sc.branches[i];
      assert sc.branches[..i + 1] == sc.branches[..i] + [b] && sc.branches[..i + 1][..i] == sc.branches[..i];
      assert b in sc.branches[..i + 1] && forall a | a in sc.branches[..i] :: a in sc.branches[..i + 1];
      if Slot(b, k) in stored && Fits(sc, k, stored[Slot(b, k)]) {
        pay := Some(pay.GetOr(0) + stored[Slot(b, k)].amount);
      }
    }
    assert sc.branches[..|sc.branches|] == sc.branches;
  }

  // ---------------------------------------------------------------- the whole report

  /** More months than a report's axis takes, or an end in the last month of the calendar. */
  datatype ReportError = TooLong | CalendarEnd

  const MAX_PERIOD_BUCKETS := 6000

  datatype Report = Report(scope: Scope, lines: seq<BranchLine>, monthly: seq<MonthLine>, applied: bool)

  predicate IsListed(windows: map<int, Window>, b: int, start: int, end: int) {
    b in windows ==> windows[b].Meets(start, end)
  }

  /** The branches whose window meets the period. */
  method ListBranches(windows: map<int, Window>, all: seq<int>, start: int, end: int) returns (branches: seq<int>)
    requires forall i, j | 0 <= i < j < |all| :: all[i] != all[j]
    ensures forall b :: b in branches <==> b in all && IsListed(windows, b, start, end)
    ensures forall i, j | 0 <= i < j < |branches| :: branches[i] != branches[j]
  {
    branches := [];
    for i := 0 to |all|
      invariant forall b :: b in branches <==> b in all[..i] && IsListed(windows, b, start, end)
      invariant forall i, j | 0 <= i < j < |branches| :: branches[i] != branches[j]
    {
      assert all[..i + 1] == all[..i] + [all[i]] && all[i] !in all[..i];
      if IsListed(windows, all[i], start, end) {
        assert forall j | 0 <= j < |branches| :: branches[j] in branches;
        branches := branches + [all[i]];
      }
    }
    assert all[..|all|] == all;
  }

  method MakeLines(sc: Scope, ps: seq<Payment>, table: Entries)
    returns (lines: seq<BranchLine>, monthly: seq<MonthLine>)
    requires InCalendar(sc)
    ensures IsBreakdown(sc, ps, table, lines, monthly)
  {
    var byMonth := BucketByMonth(sc, ps);
    var byType := BucketByBranch(sc, byMonth, ps);
    var stored := Stored(sc, table);
    hide *;
    lines := [];
    for i := 0 to |sc.branches|
      invariant |lines| == i
      invariant forall j | 0 <= j < i :: lines[j].branch == sc.branches[j] && IsBranchLine(sc, ps, table, lines[j])
    {
      var l := MakeBranchLine(sc, ps, table, stored, byType, sc.branches[i]);
      lines := lines + [l];
    }
    var axis := Axis(sc);
    monthly := [];
    for i := 0 to |axis|
      invariant |monthly| == i
      invariant forall j | 0 <= j < i :: monthly[j].month == axis[j] && IsMonthLine(sc, ps, table, monthly[j])
    {
      var l := MakeMonthLine(sc, ps, table, stored, byMonth, axis[i]);
      monthly := monthly + [l];
    }
    Assembled(sc, ps, table, lines, monthly);
  }

  lemma Assembled(sc: Scope, ps: seq<Payment>, table: Entries, lines: seq<BranchLine>, monthly: seq<MonthLine>)
    requires InCalendar(sc)
    requires |lines| == |sc.branches|
    requires forall j | 0 <= j < |lines| :: lines[j].branch == sc.branches[j] && IsBranchLine(sc, ps, table, lines[j])
    requires |monthly| == |Axis(sc)|
    requires forall j | 0 <= j < |monthly| :: monthly[j].month == Axis(sc)[j] && IsMonthLine(sc, ps, table, monthly[j])
    ensures IsBreakdown(sc, ps, table, lines, monthly)
  {
  }

  /** `fetch_payment_breakdown`. */
  method Breakdown(ps: seq<Payment>, table: Entries, windows: map<int, Window>, all: seq<int>, start: int, end: int,
                   today: int)
    returns (r: Result<Report, ReportError>)
    requires DATE_MIN <= start <= end <= DATE_MAX && DATE_MIN <= today
    requires forall i, j | 0 <= i < j < |all| :: all[i] != all[j]
    ensures r.Failure? <==> MonthOf(end) - MonthOf(start) >= 6000 || MonthOf(end) == LAST_MONTH
    ensures r.Failure? ==> (r.error == TooLong <==> MonthOf(end) - MonthOf(start) >= 6000)
    ensures r.Success? ==>
      var sc := r.value.scope;
      && sc.start == start && sc.end == end && sc.today == today && sc.windows == windows && InCalendar(sc)
      && (forall b :: b in sc.branches <==> b in all && BreakdownOutcome.MeetsPeriod(windows, b, start, end))
      && IsBreakdown(sc, ps, table, r.value.lines, r.value.monthly)
      && (r.value.applied <==> forall l | l in r.value.lines :: l.reason.None?)
  {
    if MonthOf(end) - MonthOf(start) + 1 > MAX_PERIOD_BUCKETS {
      return Failure(TooLong);
    }
    var slices := Periods.MonthSlices(start, end);
    if slices.Failure? {
      return Failure(CalendarEnd);
    }
    var branches := ListBranches(windows, all, start, end);
    forall b ensures IsListed(windows, b, start, end) <==> BreakdownOutcome.MeetsPeriod(windows, b, start, end) {
      if b in windows {
        BreakdownOutcome.WindowMeets(windows[b], start, end);
      }
    }
    var sc := Scope(start, end, today, windows, branches);
    var lines, monthly := MakeLines(sc, ps, table);
    r := Success(Report(sc, lines, monthly, forall l | l in lines :: l.reason.None?));
  }
}
