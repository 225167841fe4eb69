/** Month slices of a window, runs of equally labelled slices, and merged periods. */
module Periods {
  import opened Wrappers
  import opened Sorting
  import opened Clock
  import opened Calendar

  datatype Period = Period(start: int, end: int)

  /** Stepping past the calendar's last day, 9999-12-31. */
  datatype CalendarOverflow = CalendarOverflow

  predicate Within(day: int, p: Period) {
    p.start <= day <= p.end
  }

  /** Non-empty periods laid end to end over [start, end]. */
  ghost predicate Tiles(ps: seq<Period>, start: int, end: int) {
    && |ps| > 0 && ps[0].start == start && ps[|ps| - 1].end == end
    && (forall i | 0 <= i < |ps| :: ps[i].start <= ps[i].end)
    && (forall i | 0 <= i < |ps| - 1 :: ps[i + 1].start == ps[i].end + 1)
  }

  lemma {:induction false} TilesOrdered(ps: seq<Period>, start: int, end: int, i: nat, j: nat)
    requires Tiles(ps, start, end) && i < j < |ps|
    ensures ps[i].end < ps[j].start
    decreases j
  {
    if i < j - 1 {
      TilesOrdered(ps, start, end, i, j - 1);
    }
  }

  /** Every day of the window lies in exactly one tile, and no other day in any. */
  lemma {:induction false} TilesCover(ps: seq<Period>, start: int, end: int, day: int)
    requires Tiles(ps, start, end)
    ensures start <= day <= end <==> exists i :: 0 <= i < |ps| && Within(day, ps[i])
    ensures forall i, j | 0 <= i < |ps| && 0 <= j < |ps| && Within(day, ps[i]) && Within(day, ps[j]) :: i == j
  {
    forall i, j | 0 <= i < |ps| && 0 <= j < |ps| && Within(day, ps[i]) && Within(day, ps[j]) ensures i == j {
      if i < j {
        TilesOrdered(ps, start, end, i, j);
      } else if j < i {
        TilesOrdered(ps, start, end, j, i);
      }
    }
    forall i | 0 <= i < |ps| ensures start <= ps[i].start && ps[i].end <= end {
      if 0 < i {
        TilesOrdered(ps, start, end, 0, i);
      }
      if i < |ps| - 1 {
        TilesOrdered(ps, start, end, i, |ps| - 1);
      }
    }
    if start <= day <= end {
      var i := TileOf(ps, start, end, day);
    }
  }

  ghost function TileOf(ps: seq<Period>, start: int, end: int, day: int): (i: nat)
    requires Tiles(ps, start, end) && start <= day <= end
    ensures i < |ps| && Within(day, ps[i])
  {
    TileFrom(ps, start, end, day, 0)
  }

  ghost function TileFrom(ps: seq<Period>, start: int, end: int, day: int, j: nat): (i: nat)
    requires Tiles(ps, start, end) && j < |ps| && ps[j].start <= day <= end
    ensures i < |ps| && Within(day, ps[i])
    decreases |ps| - j
  {
    if day <= ps[j].end then j else TileFrom(ps, start, end, day, j + 1)
  }

  // ---------------------------------------------------------------- month slices

  function MonthSlice(start: int, end: int, k: int): Period
    requires FIRST_MONTH <= k
  {
    Period(if start < MonthStart(k) then MonthStart(k) else start, if MonthEnd(k) < end then MonthEnd(k) else end)
  }

  function SlicesOf(start: int, end: int): seq<Period>
    requires DATE_MIN <= start && DATE_MIN <= end
  {
    var (j, k) := (MonthOf(start), MonthOf(end));
    seq(if j <= k then k - j + 1 else 0, i requires 0 <= i => MonthSlice(start, end, j + i))
  }

  /** `_month_slices`: the cursor steps past each month's end, which December 9999 does not allow. */
  method MonthSlices(start: int, end: int) returns (r: Result<seq<Period>, CalendarOverflow>)
    requires DATE_MIN <= start <= DATE_MAX && DATE_MIN <= end <= DATE_MAX
    ensures r.Failure? <==> MonthOf(end) == LAST_MONTH
    ensures r.Success? ==> r.value == SlicesOf(start, end)
  {
    CalendarEnds();
    var slices: seq<Period> := [];
    ghost var k := MonthOf(start);
    var cursor := MonthStart(MonthOf(start));
    while cursor <= end
      invariant MonthOf(start) <= k <= LAST_MONTH && cursor == MonthStart(k)
      invariant k == MonthOf(start) || k <= MonthOf(end) + 1
      invariant |slices| == k - MonthOf(start)
      invariant forall i | 0 <= i < |slices| :: slices[i] == MonthSlice(start, end, MonthOf(start) + i)
      decreases LAST_MONTH - k
    {
      CursorMonth(k, end);
      MonthOfUnique(cursor, k);
      var monthEnd := MonthEnd(MonthOf(cursor));
      slices := slices + [Period(if start < cursor then cursor else start, if monthEnd < end then monthEnd else end)];
      if monthEnd == DATE_MAX {
        LastMonthOnly(k);
        return Failure(CalendarOverflow);
      }
      if k == LAST_MONTH {
        assert false;
      }
      cursor := monthEnd + 1;
      k := k + 1;
    }
    CursorMonth(k, end);
    assert |slices| == |SlicesOf(start, end)|;
    r := Success(slices);
  }

  lemma CursorMonth(k: int, end: int)
    requires FIRST_MONTH <= k && DATE_MIN <= end
    ensures DATE_MIN <= MonthStart(k)
    ensures MonthStart(k) <= end <==> k <= MonthOf(end)
  {
    MonthsOrdered(FIRST_MONTH, k);
    if k <= MonthOf(end) {
      MonthsOrdered(k, MonthOf(end));
    } else {
      MonthsOrdered(MonthOf(end), k);
    }
  }

  lemma LastMonthOnly(k: int)
    requires FIRST_MONTH <= k && MonthEnd(k) == DATE_MAX
    ensures k == LAST_MONTH
  {
    CalendarEnds();
    if k < LAST_MONTH {
      MonthsOrdered(k, LAST_MONTH);
    } else if LAST_MONTH < k {
      MonthsOrdered(LAST_MONTH, k);
    }
  }

  /** Inside the window a slice is the whole month; at the ends it is cut by the window. */
  lemma SliceEdges(start: int, end: int, k: int)
    requires DATE_MIN <= start <= end && MonthOf(start) <= k <= MonthOf(end)
    ensures MonthSlice(start, end, k).start == if k == MonthOf(start) then start else MonthStart(k)
    ensures MonthSlice(start, end, k).end == if k == MonthOf(end) then end else MonthEnd(k)
    ensures MonthSlice(start, end, k).start <= MonthSlice(start, end, k).end
  {
    MonthsOrdered(MonthOf(start), k);
    MonthsOrdered(k, MonthOf(end));
  }

  lemma SlicesTile(start: int, end: int)
    requires DATE_MIN <= start <= end
    ensures Tiles(SlicesOf(start, end), start, end)
  {
    var ps := SlicesOf(start, end);
    MonthOfMonotone(start, end);
    forall i | 0 <= i < |ps| ensures ps[i].start <= ps[i].end {
      SliceEdges(start, end, MonthOf(start) + i);
    }
    forall i | 0 <= i < |ps| - 1 ensures ps[i + 1].start == ps[i].end + 1 {
      SliceEdges(start, end, MonthOf(start) + i);
      SliceEdges(start, end, MonthOf(start) + i + 1);
    }
    SliceEdges(start, end, MonthOf(start));
    SliceEdges(start, end, MonthOf(end));
  }

  // ---------------------------------------------------------------- runs of equal kinds

  datatype Run<L> = Run(start: int, end: int, kind: L)

  function Span<L>(r: Run<L>): Period {
    Period(r.start, r.end)
  }

  ghost function Spans<L>(runs: seq<Run<L>>): seq<Period> {
    seq(|runs|, i requires 0 <= i < |runs| => Span(runs[i]))
  }

  /** The runs join the labelled slices: they tile the same days, neighbours differ, and kinds agree day by day. */
  ghost predicate JoinsRuns<L>(slices: seq<Period>, kinds: seq<L>, runs: seq<Run<L>>) {
    && |kinds| == |slices|
    && (slices == [] ==> runs == [])
    && (slices != [] ==> Tiles(Spans(runs), slices[0].start, slices[|slices| - 1].end))
    && (forall i | 0 <= i < |runs| - 1 :: runs[i].kind != runs[i + 1].kind)
    && (forall i | 0 <= i < |slices| :: exists j :: 0 <= j < |runs| && RunHolds(runs[j], slices[i], kinds[i]))
  }

  ghost predicate RunHolds<L>(r: Run<L>, p: Period, kind: L) {
    r.start <= p.start && p.end <= r.end && r.kind == kind
  }

  lemma RunsTile<L>(slices: seq<Period>, kinds: seq<L>, runs: seq<Run<L>>, slice: Period, kind: L, r: seq<Run<L>>)
    requires JoinsRuns(slices, kinds, runs)
    requires slice.start <= slice.end && (slices != [] ==> slice.start == slices[|slices| - 1].end + 1)
    requires r == runs + [Run(slice.start, slice.end, kind)]
      || (runs != [] && r == runs[|runs| - 1 := runs[|runs| - 1].(end := slice.end)])
    ensures Tiles(Spans(r), (slices + [slice])[0].start, slice.end)
  {
    var before, after := Spans(runs), Spans(r);
    assert forall i | 0 <= i < |runs| - 1 :: after[i] == before[i];
  }

  /** One turn of the joining loops: grow the last run or start a new one. */
  method AppendRun<L(==)>(ghost slices: seq<Period>, ghost kinds: seq<L>, runs: seq<Run<L>>, slice: Period, kind: L)
    returns (r: seq<Run<L>>)
    requires JoinsRuns(slices, kinds, runs)
    requires slice.start <= slice.end && (slices != [] ==> slice.start == slices[|slices| - 1].end + 1)
    ensures JoinsRuns(slices + [slice], kinds + [kind], r)
  {
    if runs != [] && runs[|runs| - 1].kind == kind {
      r := runs[|runs| - 1 := runs[|runs| - 1].(end := slice.end)];
    } else {
      r := runs + [Run(slice.start, slice.end, kind)];
    }
    RunsTile(slices, kinds, runs, slice, kind, r);
    forall i | 0 <= i <= |slices|
      ensures exists j :: 0 <= j < |r| && RunHolds(r[j], (slices + [slice])[i], (kinds + [kind])[i])
    {
      if i < |slices| {
        var j :| 0 <= j < |runs| && RunHolds(runs[j], slices[i], kinds[i]);
        assert RunHolds(r[j], slices[i], kinds[i]);
      } else {
        assert RunHolds(r[|r| - 1], slice, kind);
      }
    }
  }

  /** The kind of a run is the kind of every slice that shares a day with it. */
  lemma RunLabels<L>(slices: seq<Period>, kinds: seq<L>, runs: seq<Run<L>>, start: int, end: int, i: nat, j: nat,
                     day: int)
    requires JoinsRuns(slices, kinds, runs) && Tiles(slices, start, end)
    requires i < |slices| && j < |runs| && Within(day, slices[i]) && Within(day, Span(runs[j]))
    ensures runs[j].kind == kinds[i]
  {
    var m :| 0 <= m < |runs| && RunHolds(runs[m], slices[i], kinds[i]);
    TilesCover(Spans(runs), start, end, day);
    assert Within(day, Spans(runs)[m]) && Within(day, Spans(runs)[j]);
  }

  // ---------------------------------------------------------------- merging

  predicate PeriodLe(a: Period, b: Period) {
    a.start < b.start || (a.start == b.start && a.end <= b.end)
  }

  ghost predicate CoversDay(ps: seq<Period>, day: int) {
    exists p :: p in ps && Within(day, p)
  }

  /** Each period starts after a gap of at least one day. */
  ghost predicate Separated(ps: seq<Period>) {
    forall i | 0 <= i < |ps| - 1 :: ps[i].end + 1 < ps[i + 1].start
  }

  ghost function MergeOf(sorted: seq<Period>): seq<Period> {
    if sorted == [] then [] else Extend(MergeOf(sorted[..|sorted| - 1]), sorted[|sorted| - 1])
  }

  function Extend(merged: seq<Period>, p: Period): seq<Period> {
    if merged != [] && p.start <= merged[|merged| - 1].end + 1 then
      var last := merged[|merged| - 1];
      merged[..|merged| - 1] + [Period(last.start, if last.end < p.end then p.end else last.end)]
    else merged + [p]
  }

  lemma PeriodOrder()
    ensures TotalOrder(PeriodLe)
  {
  }

  /** What the merge of a sorted prefix ending in `q` looks like. */
  ghost predicate Shaped(m: seq<Period>, q: Period) {
    && m != [] && Separated(m) && (forall i | 0 <= i < |m| - 1 :: PeriodLe(m[i], m[i + 1]))
    && MergeLast(m).start <= q.start && q.end <= MergeLast(m).end
    && (MergeLast(m).end + 1 < MergeLast(m).start ==> MergeLast(m) == q)
  }

  lemma ExtendShape(m: seq<Period>, q: Period, p: Period)
    requires Shaped(m, q) && PeriodLe(q, p)
    ensures Shaped(Extend(m, p), p)
  {
  }

  lemma {:induction false} MergeShape(sorted: seq<Period>)
    requires SortedBy(PeriodLe, sorted) && sorted != []
    ensures Shaped(MergeOf(sorted), sorted[|sorted| - 1])
  {
    var n := |sorted| - 1;
    if n == 0 {
      assert MergeOf(sorted[..0]) == [];
    } else {
      MergeShape(sorted[..n]);
      assert PeriodLe(sorted[n - 1], sorted[n]);
      ExtendShape(MergeOf(sorted[..n]), sorted[n - 1], sorted[n]);
    }
  }

  lemma {:induction false} ChainSorted(m: seq<Period>)
    requires forall i | 0 <= i < |m| - 1 :: PeriodLe(m[i], m[i + 1])
    ensures SortedBy(PeriodLe, m)
  {
    if m == [] {
    } else {
      var n := |m| - 1;
      ChainSorted(m[..n]);
      forall i, j | 0 <= i < j < |m| ensures PeriodLe(m[i], m[j]) {
        if j == n && i < n - 1 {
          assert PeriodLe(m[..n][i], m[..n][n - 1]);
        } else if j < n {
          assert PeriodLe(m[..n][i], m[..n][j]);
        }
      }
    }
  }

  ghost function MergeLast(merged: seq<Period>): Period {
    if merged == [] then Period(0, 0) else merged[|merged| - 1]
  }

  /** The merged periods hold exactly the same days, for any input, inverted periods included. */
  lemma {:induction false} MergeKeepsDays(sorted: seq<Period>, day: int)
    requires SortedBy(PeriodLe, sorted)
    ensures CoversDay(MergeOf(sorted), day) <==> CoversDay(sorted, day)
  {
    if sorted == [] {
    } else {
      var n := |sorted| - 1;
      var m, p := MergeOf(sorted[..n]), sorted[n];
      MergeKeepsDays(sorted[..n], day);
      if n > 0 {
        MergeShape(sorted[..n]);
        assert PeriodLe(sorted[n - 1], sorted[n]);
      }
      assert sorted == sorted[..n] + [p];
      assert CoversDay(sorted, day) <==> CoversDay(sorted[..n], day) || Within(day, p);
      ExtendKeepsDays(m, p, day);
    }
  }

  lemma ExtendKeepsDays(m: seq<Period>, p: Period, day: int)
    requires m != [] ==> MergeLast(m).start <= p.start
    ensures CoversDay(Extend(m, p), day) <==> CoversDay(m, day) || Within(day, p)
  {
    if m != [] && p.start <= MergeLast(m).end + 1 {
      var init, last := m[..|m| - 1], MergeLast(m);
      assert m == init + [last];
      var grown := Period(last.start, if last.end < p.end then p.end else last.end);
      assert CoversDay(m, day) <==> CoversDay(init, day) || Within(day, last);
      assert CoversDay(init + [grown], day) <==> CoversDay(init, day) || Within(day, grown);
    } else {
      assert CoversDay(m + [p], day) <==> CoversDay(m, day) || Within(day, p);
    }
  }

  lemma MergedPeriods(periods: seq<Period>, day: int)
    ensures var merged := MergeOf(Sort(PeriodLe, periods));
      Separated(merged) && (CoversDay(merged, day) <==> CoversDay(periods, day))
  {
    PeriodOrder();
    SortSorts(PeriodLe, periods);
    SortPermutes(PeriodLe, periods);
    if periods != [] {
      MergeShape(Sort(PeriodLe, periods));
    }
    MergeKeepsDays(Sort(PeriodLe, periods), day);
  }

  /** Some period that is not the last in order ends on the calendar's last day, which has no day after it. */
  predicate EndsTooLate(periods: seq<Period>) {
    var sorted := Sort(PeriodLe, periods);
    exists i :: 0 <= i < |sorted| - 1 && sorted[i].end == DATE_MAX
  }

  /** `_merge_date_periods`: the same days in periods with gaps between them; stepping past the last day overflows. */
  method MergeDatePeriods(periods: seq<Period>) returns (r: Result<seq<Period>, CalendarOverflow>)
    requires forall p | p in periods :: p.end <= DATE_MAX
    ensures r.Failure? <==> EndsTooLate(periods)
    ensures r.Success? ==> r.value == MergeOf(Sort(PeriodLe, periods)) && Separated(r.value)
    ensures r.Success? ==> forall day :: CoversDay(r.value, day) <==> CoversDay(periods, day)
  {
    SortPermutes(PeriodLe, periods);
    var sorted := Sort(PeriodLe, periods);
    r := MergeSorted(sorted);
    hide MergeOf, Separated, CoversDay;
    forall day | r.Success? ensures Separated(r.value) && (CoversDay(r.value, day) <==> CoversDay(periods, day)) {
      MergedPeriods(periods, day);
    }
    if r.Success? {
      MergedPeriods(periods, 0);
    }
  }

  /** Where the merge ends after one more period. */
  lemma ExtendEnd(m: seq<Period>, p: Period)
    ensures Extend(m, p) != []
    ensures MergeLast(Extend(m, p)).end ==
      if m != [] && p.start <= MergeLast(m).end + 1 && p.end < MergeLast(m).end then MergeLast(m).end else p.end
  {
  }

  lemma MergeOneMore(sorted: seq<Period>, i: nat)
    requires i < |sorted|
    ensures MergeOf(sorted[..i + 1]) == Extend(MergeOf(sorted[..i]), sorted[i])
  {
    assert sorted[..i + 1][..i] == sorted[..i];
  }

  method MergeSorted(sorted: seq<Period>) returns (r: Result<seq<Period>, CalendarOverflow>)
    requires forall p | p in sorted :: p.end <= DATE_MAX
    ensures r.Failure? <==> exists i :: 0 <= i < |sorted| - 1 && sorted[i].end == DATE_MAX
    ensures r.Success? ==> r.value == MergeOf(sorted)
  {
    var merged: seq<Period> := [];
    for i := 0 to |sorted|
      invariant merged == MergeOf(sorted[..i])
      invariant forall j | 0 <= j < i - 1 :: sorted[j].end != DATE_MAX
      invariant i == 0 ==> merged == []
      invariant i > 0 ==> merged != [] && MergeLast(merged).end <= DATE_MAX
      invariant i > 0 ==> (MergeLast(merged).end == DATE_MAX <==> sorted[i - 1].end == DATE_MAX)
    {
      hide MergeOf, Extend;
      assert sorted[i] in sorted;
      if merged != [] && merged[|merged| - 1].end == DATE_MAX {
        return Failure(CalendarOverflow);
      }
      MergeOneMore(sorted, i);
      ExtendEnd(merged, sorted[i]);
      merged := Extend(merged, sorted[i]);
    }
    assert sorted[..|sorted|] == sorted;
    r := Success(merged);
  }

  lemma {:induction false} MergeOfSeparated(ps: seq<Period>)
    requires Separated(ps)
    ensures MergeOf(ps) == ps
  {
    if ps == [] {
    } else {
      var n := |ps| - 1;
      MergeOfSeparated(ps[..n]);
      assert ps == ps[..n] + [ps[n]];
    }
  }

  /** Merging merged periods changes nothing. */
  lemma MergeIdempotent(periods: seq<Period>)
    ensures var merged := MergeOf(Sort(PeriodLe, periods)); MergeOf(Sort(PeriodLe, merged)) == merged
  {
    PeriodOrder();
    SortSorts(PeriodLe, periods);
    SortPermutes(PeriodLe, periods);
    var merged := MergeOf(Sort(PeriodLe, periods));
    if periods != [] {
      MergeShape(Sort(PeriodLe, periods));
    }
    ChainSorted(merged);
    SortOfSorted(PeriodLe, merged);
    MergeOfSeparated(merged);
  }
}
