/** Which kind of work a month counts as, told over the plan rows in the order they are read. */
module RoleOutcome {
  import opened Wrappers
  import opened Clock
  import opened Calendar
  import opened Periods
  import opened Roles

  /** A row with a known category that touches the stretch [from, to]. */
  predicate Touches(row: PlanRow, from: int, to: int) {
    row.category.Some? && row.start <= to && from <= row.end
  }

  /** Row `i` touches the stretch; every other that does is older, or as old and read later. */
  predicate IsNewestRow(rows: seq<PlanRow>, from: int, to: int, i: int) {
    && 0 <= i < |rows| && Touches(rows[i], from, to)
    && (forall j | 0 <= j < i && Touches(rows[j], from, to) :: rows[j].updatedAt < rows[i].updatedAt)
    && (forall j | i < j < |rows| && Touches(rows[j], from, to) :: rows[j].updatedAt <= rows[i].updatedAt)
  }

  predicate NoneTouch(rows: seq<PlanRow>, from: int, to: int) {
    forall row | row in rows :: !Touches(row, from, to)
  }

  lemma NewestMore(rows: seq<PlanRow>, from: int, to: int, i: int)
    requires rows != []
    ensures IsNewestRow(rows[..|rows| - 1], from, to, i)
      && (Touches(rows[|rows| - 1], from, to) ==> rows[|rows| - 1].updatedAt <= rows[i].updatedAt)
      ==> IsNewestRow(rows, from, to, i)
  {
  }

  lemma {:induction false} NewestExactly(rows: seq<PlanRow>, slice: Period)
    ensures Newest(rows, slice).None? <==> NoneTouch(rows, slice.start, slice.end)
    ensures Newest(rows, slice).Some?
      ==> exists i :: IsNewestRow(rows, slice.start, slice.end, i) && rows[i] == Newest(rows, slice).value
  {
    if rows != [] {
      var (n, best) := (|rows| - 1, Newest(rows, slice));
      NewestExactly(rows[..n], slice);
      assert rows == rows[..n] + [rows[n]];
      hide IsNewestRow;
      if best.Some? {
        if Newest(rows[..n], slice) == best {
          var i :| IsNewestRow(rows[..n], slice.start, slice.end, i) && rows[..n][i] == best.value;
          NewestMore(rows, slice.start, slice.end, i);
        } else {
          LastIsNewest(rows, slice);
        }
      }
    }
  }

  lemma LastIsNewest(rows: seq<PlanRow>, slice: Period)
    requires rows != [] && Newest(rows, slice) != Newest(rows[..|rows| - 1], slice)
    ensures IsNewestRow(rows, slice.start, slice.end, |rows| - 1) && Newest(rows, slice) == Some(rows[|rows| - 1])
  {
    var n := |rows| - 1;
    var (front, best) := (rows[..n], Newest(rows[..n], slice));
    assert IsCandidateRow(rows[n], slice) && (best.None? || best.value.updatedAt < rows[n].updatedAt);
    forall j | 0 <= j < n && Touches(rows[j], slice.start, slice.end) ensures rows[j].updatedAt < rows[n].updatedAt {
      assert front[j] in front && IsCandidateRow(front[j], slice);
    }
  }

  /**
   * A month's category is that of its newest metric row; without one, of its newest input row; without either, the
   * position's.
   */
  lemma CategoryExactly(plan: Plan, slice: Period)
    ensures !NoneTouch(plan.metrics, slice.start, slice.end)
      ==> exists i :: IsNewestRow(plan.metrics, slice.start, slice.end, i)
                      && plan.metrics[i].category == Some(CategoryIn(plan, slice))
    ensures NoneTouch(plan.metrics, slice.start, slice.end) && !NoneTouch(plan.inputs, slice.start, slice.end)
      ==> exists i :: IsNewestRow(plan.inputs, slice.start, slice.end, i)
                      && plan.inputs[i].category == Some(CategoryIn(plan, slice))
    ensures NoneTouch(plan.metrics, slice.start, slice.end) && NoneTouch(plan.inputs, slice.start, slice.end)
      ==> CategoryIn(plan, slice) == plan.fallback
  {
    NewestExactly(plan.metrics, slice);
    NewestExactly(plan.inputs, slice);
  }

  // ---------------------------------------------------------------- periods and segments are joined as far as they go

  /** The run that starts where another one ends is the next one. */
  lemma NextRun<L>(runs: seq<Run<L>>, start: int, end: int, i: nat, j: nat)
    requires Tiles(Spans(runs), start, end) && i < |runs| && j < |runs| && runs[i].end + 1 == runs[j].start
    ensures j == i + 1
  {
    var ps := Spans(runs);
    assert ps[i] == Span(runs[i]) && ps[j] == Span(runs[j]);
    if j < i {
      TilesOrdered(ps, start, end, j, i);
    } else if i < j {
      if i + 1 < j {
        TilesOrdered(ps, start, end, i, i + 1);
        TilesOrdered(ps, start, end, i + 1, j);
      }
    }
  }

  /** No period of one kind of work starts the day after another one of the same kind ends. */
  lemma RolesAreJoined(plan: Plan, start: int, end: int, admin: seq<Period>, master: seq<Period>, p: Period, q: Period)
    requires DATE_MIN <= start <= end && ResolvedAs(plan, start, end, admin, master)
    requires (p in admin && q in admin) || (p in master && q in master)
    ensures p.end + 1 != q.start
  {
    var runs: seq<Run<Category>> :| RolesFrom(plan, start, end, runs, admin, master);
    SlicesTile(start, end);
    var kind := if p in admin && q in admin then Administrator else Barber;
    var i :| 0 <= i < |runs| && runs[i].kind == kind && Span(runs[i]) == p;
    var j :| 0 <= j < |runs| && runs[j].kind == kind && Span(runs[j]) == q;
    if p.end + 1 == q.start {
      NextRun(runs, start, end, i, j);
    }
  }

  /** Neighbouring segments follow each other without a gap and carry different roles. */
  lemma SegmentsAreJoined(start: int, end: int, adminPeriods: map<int, seq<Period>>, segments: seq<Run<RoleMap>>,
                          i: nat)
    requires DATE_MIN <= start <= end && i + 1 < |segments|
    requires JoinsRuns(SlicesOf(start, end), SliceRoles(adminPeriods, SlicesOf(start, end)), segments)
    ensures segments[i + 1].start == segments[i].end + 1 && segments[i + 1].kind != segments[i].kind
  {
    SlicesTile(start, end);
    assert Spans(segments)[i] == Span(segments[i]) && Spans(segments)[i + 1] == Span(segments[i + 1]);
  }
}
