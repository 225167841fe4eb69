/** Who was administrator and who was master when: resolved role periods and role segments. */
module Roles {
  import opened Wrappers
  import opened Clock
  import opened Calendar
  import opened Periods

  datatype Category = Administrator | Barber

  /** A plan row of one person in one branch; rows without a known category never decide a role. */
  datatype PlanRow = PlanRow(start: int, end: int, category: Option<Category>, updatedAt: int)

  datatype Plan = Plan(metrics: seq<PlanRow>, inputs: seq<PlanRow>, fallback: Category)

  predicate Overlaps(p: Period, q: Period) {
    p.start <= q.end && q.start <= p.end
  }

  predicate IsCandidateRow(row: PlanRow, slice: Period) {
    Overlaps(Period(row.start, row.end), slice) && row.category.Some?
  }

  /** The most recently updated candidate, the first one read when several tie. */
  function Newest(rows: seq<PlanRow>, slice: Period): (best: Option<PlanRow>)
    ensures best.Some? ==> best.value in rows && IsCandidateRow(best.value, slice)
    ensures forall row | row in rows && IsCandidateRow(row, slice) ::
      best.Some? && row.updatedAt <= best.value.updatedAt
  {
    if rows == [] then None
    else
      var n := |rows| - 1;
      var best := Newest(rows[..n], slice);
      if IsCandidateRow(rows[n], slice) && (best.None? || best.value.updatedAt < rows[n].updatedAt)
        then Some(rows[n]) else best
  }

  /** Metric rows decide a month before input rows do; without either the position decides. */
  function CategoryIn(plan: Plan, slice: Period): Category {
    var metric := Newest(plan.metrics, slice);
    var input := Newest(plan.inputs, slice);
    if metric.Some? then metric.value.category.value
    else if input.Some? then input.value.category.value
    else plan.fallback
  }

  /** The category of the month slice a day lies in. */
  function CategoryOn(plan: Plan, start: int, end: int, day: int): Category
    requires DATE_MIN <= day
  {
    CategoryIn(plan, MonthSlice(start, end, MonthOf(day)))
  }

  lemma SliceOfDay(start: int, end: int, day: int)
    requires DATE_MIN <= start <= day <= end
    ensures var i := MonthOf(day) - MonthOf(start);
      && 0 <= i < |SlicesOf(start, end)| && SlicesOf(start, end)[i] == MonthSlice(start, end, MonthOf(day))
      && Within(day, SlicesOf(start, end)[i])
  {
    MonthOfMonotone(start, day);
    MonthOfMonotone(day, end);
  }

  // ---------------------------------------------------------------- resolved role periods

  ghost predicate SpansOfKind(runs: seq<Run<Category>>, kind: Category, ps: seq<Period>) {
    forall p :: p in ps <==> exists j :: 0 <= j < |runs| && runs[j].kind == kind && Span(runs[j]) == p
  }

  method PeriodsOfKind(runs: seq<Run<Category>>, kind: Category) returns (ps: seq<Period>)
    ensures SpansOfKind(runs, kind, ps)
  {
    ps := [];
    for i := 0 to |runs|
      invariant forall p :: p in ps <==> exists j :: 0 <= j < i && runs[j].kind == kind && Span(runs[j]) == p
    {
      if runs[i].kind == kind {
        ps := ps + [Span(runs[i])];
      }
    }
  }

  /** The joined runs behind a person's role periods. */
  ghost predicate RolesFrom(plan: Plan, start: int, end: int, runs: seq<Run<Category>>, admin: seq<Period>,
                            master: seq<Period>)
    requires DATE_MIN <= start && DATE_MIN <= end
  {
    var slices := SlicesOf(start, end);
    && JoinsRuns(slices, seq(|slices|, i requires 0 <= i < |slices| => CategoryIn(plan, slices[i])), runs)
    && SpansOfKind(runs, Administrator, admin) && SpansOfKind(runs, Barber, master)
  }

  ghost predicate ResolvedAs(plan: Plan, start: int, end: int, admin: seq<Period>, master: seq<Period>)
    requires DATE_MIN <= start && DATE_MIN <= end
  {
    exists runs :: RolesFrom(plan, start, end, runs, admin, master)
  }

  /** `_resolve_staff_role_periods` for one person. */
  method ResolveRoles(plan: Plan, start: int, end: int)
    returns (r: Result<(seq<Period>, seq<Period>), CalendarOverflow>)
    requires DATE_MIN <= start <= end <= DATE_MAX
    ensures r.Failure? <==> MonthOf(end) == LAST_MONTH
    ensures r.Success? ==> ResolvedAs(plan, start, end, r.value.0, r.value.1)
  {
    var slices := MonthSlices(start, end);
    if slices.Failure? {
      return Failure(slices.error);
    }
    var ps := slices.value;
    SlicesTile(start, end);
    var runs: seq<Run<Category>> := [];
    ghost var kinds: seq<Category> := [];
    for i := 0 to |ps|
      invariant kinds == seq(i, j requires 0 <= j < i => CategoryIn(plan, ps[j]))
      invariant JoinsRuns(ps[..i], kinds, runs)
    {
      assert ps[..i + 1] == ps[..i] + [ps[i]];
      runs := AppendRun(ps[..i], kinds, runs, ps[i], CategoryIn(plan, ps[i]));
      kinds := kinds + [CategoryIn(plan, ps[i])];
    }
    assert ps[..|ps|] == ps;
    var admin := PeriodsOfKind(runs, Administrator);
    var master := PeriodsOfKind(runs, Barber);
    assert kinds == seq(|ps|, i requires 0 <= i < |ps| => CategoryIn(plan, ps[i]));
    assert RolesFrom(plan, start, end, runs, admin, master);
    r := Success((admin, master));
  }

  lemma KindDayCovered(plan: Plan, start: int, end: int, runs: seq<Run<Category>>, admin: seq<Period>,
                       master: seq<Period>,
                       kind: Category, day: int)
    requires DATE_MIN <= start <= end && RolesFrom(plan, start, end, runs, admin, master)
    requires start <= day <= end && CategoryOn(plan, start, end, day) == kind
    ensures CoversDay(if kind == Administrator then admin else master, day)
  {
    var slices := SlicesOf(start, end);
    var kinds := seq(|slices|, i requires 0 <= i < |slices| => CategoryIn(plan, slices[i]));
    SlicesTile(start, end);
    TilesCover(Spans(runs), start, end, day);
    SliceOfDay(start, end, day);
    var j :| 0 <= j < |runs| && Within(day, Spans(runs)[j]);
    RunLabels(slices, kinds, runs, start, end, MonthOf(day) - MonthOf(start), j, day);
    hide JoinsRuns, Tiles;
    assert Span(runs[j]) in if kind == Administrator then admin else master;
  }

  lemma CoveredDayKind(plan: Plan, start: int, end: int, runs: seq<Run<Category>>, admin: seq<Period>,
                       master: seq<Period>,
                       kind: Category, day: int)
    requires DATE_MIN <= start <= end && RolesFrom(plan, start, end, runs, admin, master)
    requires CoversDay(if kind == Administrator then admin else master, day)
    ensures start <= day <= end && CategoryOn(plan, start, end, day) == kind
  {
    var slices := SlicesOf(start, end);
    var kinds := seq(|slices|, i requires 0 <= i < |slices| => CategoryIn(plan, slices[i]));
    var ps := if kind == Administrator then admin else master;
    SlicesTile(start, end);
    TilesCover(Spans(runs), start, end, day);
    var p :| p in ps && Within(day, p);
    var m :| 0 <= m < |runs| && runs[m].kind == kind && Span(runs[m]) == p;
    assert Within(day, Spans(runs)[m]);
    SliceOfDay(start, end, day);
    RunLabels(slices, kinds, runs, start, end, MonthOf(day) - MonthOf(start), m, day);
  }

  /** The periods of one kind hold exactly the days of the window whose month has that kind. */
  lemma KindDays(plan: Plan, start: int, end: int, runs: seq<Run<Category>>, admin: seq<Period>, master: seq<Period>,
                 kind: Category, day: int)
    requires DATE_MIN <= start <= end && RolesFrom(plan, start, end, runs, admin, master)
    ensures CoversDay(if kind == Administrator then admin else master, day)
       <==> start <= day <= end && CategoryOn(plan, start, end, day) == kind
  {
    if start <= day <= end && CategoryOn(plan, start, end, day) == kind {
      KindDayCovered(plan, start, end, runs, admin, master, kind, day);
    }
    if CoversDay(if kind == Administrator then admin else master, day) {
      CoveredDayKind(plan, start, end, runs, admin, master, kind, day);
    }
  }

  /** Administrator and master periods are disjoint, cover the window and follow each day's month. */
  lemma RolesPartition(plan: Plan, start: int, end: int, admin: seq<Period>, master: seq<Period>, day: int)
    requires DATE_MIN <= start <= end && ResolvedAs(plan, start, end, admin, master)
    ensures CoversDay(admin, day) <==> start <= day <= end && CategoryOn(plan, start, end, day) == Administrator
    ensures CoversDay(master, day) <==> start <= day <= end && CategoryOn(plan, start, end, day) == Barber
    ensures start <= day <= end <==> CoversDay(admin, day) || CoversDay(master, day)
    ensures !(CoversDay(admin, day) && CoversDay(master, day))
  {
    var runs: seq<Run<Category>> :| RolesFrom(plan, start, end, runs, admin, master);
    KindDays(plan, start, end, runs, admin, master, Administrator, day);
    KindDays(plan, start, end, runs, admin, master, Barber, day);
  }

  // ---------------------------------------------------------------- role segments

  type RoleMap = map<int, Category>

  predicate AdminIn(admin: seq<Period>, slice: Period) {
    exists p | p in admin :: Overlaps(p, slice)
  }

  function CategoriesIn(adminPeriods: map<int, seq<Period>>, slice: Period): RoleMap {
    map staff | staff in adminPeriods :: if AdminIn(adminPeriods[staff], slice) then Administrator else Barber
  }

  ghost function SliceRoles(adminPeriods: map<int, seq<Period>>, slices: seq<Period>): seq<RoleMap> {
    seq(|slices|, i requires 0 <= i < |slices| => CategoriesIn(adminPeriods, slices[i]))
  }

  /** `_staff_role_segments`: months with one role map are joined. */
  method RoleSegments(start: int, end: int, adminPeriods: map<int, seq<Period>>)
    returns (r: Result<seq<Run<RoleMap>>, CalendarOverflow>)
    requires DATE_MIN <= start <= end <= DATE_MAX
    ensures r.Failure? <==> MonthOf(end) == LAST_MONTH
    ensures r.Success? ==> JoinsRuns(SlicesOf(start, end), SliceRoles(adminPeriods, SlicesOf(start, end)), r.value)
  {
    var slices := MonthSlices(start, end);
    if slices.Failure? {
      return Failure(slices.error);
    }
    var ps := slices.value;
    SlicesTile(start, end);
    var segments: seq<Run<RoleMap>> := [];
    for i := 0 to |ps|
      invariant JoinsRuns(ps[..i], SliceRoles(adminPeriods, ps[..i]), segments)
    {
      assert ps[..i + 1] == ps[..i] + [ps[i]];
      assert SliceRoles(adminPeriods, ps[..i + 1]) == SliceRoles(adminPeriods, ps[..i])
        + [CategoriesIn(adminPeriods, ps[i])];
      segments := AppendRun(ps[..i], SliceRoles(adminPeriods, ps[..i]), segments, ps[i],
                            CategoriesIn(adminPeriods, ps[i]));
    }
    assert ps[..|ps|] == ps;
    r := Success(segments);
  }

  /** Segments tile the window, neighbours differ, and each day's segment carries its month's roles. */
  lemma SegmentsFollowMonths(start: int, end: int, adminPeriods: map<int, seq<Period>>, segments: seq<Run<RoleMap>>,
                             day: int, j: nat)
    requires DATE_MIN <= start <= end
    requires JoinsRuns(SlicesOf(start, end), SliceRoles(adminPeriods, SlicesOf(start, end)), segments)
    requires j < |segments| && Within(day, Span(segments[j]))
    ensures Tiles(Spans(segments), start, end) && start <= day <= end
    ensures segments[j].kind == CategoriesIn(adminPeriods, MonthSlice(start, end, MonthOf(day)))
  {
    SlicesTile(start, end);
    TilesCover(Spans(segments), start, end, day);
    assert Within(day, Spans(segments)[j]);
    SliceOfDay(start, end, day);
    RunLabels(SlicesOf(start, end), SliceRoles(adminPeriods, SlicesOf(start, end)), segments, start, end,
              MonthOf(day) - MonthOf(start), j, day);
  }

  /** A month one of the periods touches is inside them with all its days of the window. */
  ghost predicate MonthAligned(admin: seq<Period>, start: int, end: int)
    requires DATE_MIN <= start && DATE_MIN <= end
  {
    forall slice | slice in SlicesOf(start, end) && AdminIn(admin, slice) ::
      forall day | Within(day, slice) :: CoversDay(admin, day)
  }

  ghost predicate SegmentsAgree(segments: seq<Run<RoleMap>>, staff: int, admin: seq<Period>) {
    forall j, day | 0 <= j < |segments| && Within(day, Span(segments[j])) ::
      AgreesOn(segments[j].kind, staff, admin, day)
  }

  ghost predicate AgreesOn(roles: RoleMap, staff: int, admin: seq<Period>, day: int) {
    staff in roles && (roles[staff] == Administrator <==> CoversDay(admin, day))
  }

  /**
   * A segment calls a person administrator exactly on their administrator days if and only if those are month-aligned.
   */
  lemma SegmentsAgreeExactly(start: int, end: int, adminPeriods: map<int, seq<Period>>, segments: seq<Run<RoleMap>>,
                             staff: int)
    requires DATE_MIN <= start <= end && staff in adminPeriods
    requires JoinsRuns(SlicesOf(start, end), SliceRoles(adminPeriods, SlicesOf(start, end)), segments)
    ensures SegmentsAgree(segments, staff, adminPeriods[staff]) <==> MonthAligned(adminPeriods[staff], start, end)
  {
    var admin := adminPeriods[staff];
    if MonthAligned(admin, start, end) {
      forall j, day | 0 <= j < |segments| && Within(day, Span(segments[j]))
        ensures AgreesOn(segments[j].kind, staff, admin, day)
      {
        SegmentsFollowMonths(start, end, adminPeriods, segments, day, j);
        SliceOfDay(start, end, day);
        AgreeOn(admin, MonthSlice(start, end, MonthOf(day)), day);
      }
    }
    if SegmentsAgree(segments, staff, admin) {
      forall slice, day | slice in SlicesOf(start, end) && AdminIn(admin, slice) && Within(day, slice)
        ensures CoversDay(admin, day)
      {
        AgreementCovers(start, end, adminPeriods, segments, staff, slice, day);
      }
      assert MonthAligned(admin, start, end);
    }
  }

  /** Half of January of year 1 as administrator: the month's one segment says administrator on all of it. */
  lemma HalfMonthDisagrees(segments: seq<Run<RoleMap>>)
    requires JoinsRuns(SlicesOf(1, 31), SliceRoles(map[7 := [Period(1, 15)]], SlicesOf(1, 31)), segments)
    ensures !SegmentsAgree(segments, 7, [Period(1, 15)])
  {
    var admin := [Period(1, 15)];
    assert MonthStart(FIRST_MONTH) == 1 && MonthEnd(FIRST_MONTH) == 31;
    MonthOfUnique(1, FIRST_MONTH);
    MonthOfUnique(31, FIRST_MONTH);
    assert MonthOf(1) == FIRST_MONTH && MonthOf(31) == FIRST_MONTH;
    assert MonthSlice(1, 31, FIRST_MONTH) == Period(1, 31);
    assert SlicesOf(1, 31)[0] == MonthSlice(1, 31, FIRST_MONTH + 0);
    assert admin[0] in admin && AdminIn(admin, Period(1, 31));
    assert Within(20, Period(1, 31)) && !CoversDay(admin, 20);
    SegmentsAgreeExactly(1, 31, map[7 := admin], segments, 7);
  }

  lemma AgreementCovers(start: int, end: int, adminPeriods: map<int, seq<Period>>, segments: seq<Run<RoleMap>>,
                        staff: int,
                        slice: Period, day: int)
    requires DATE_MIN <= start <= end && staff in adminPeriods
    requires JoinsRuns(SlicesOf(start, end), SliceRoles(adminPeriods, SlicesOf(start, end)), segments)
    requires SegmentsAgree(segments, staff, adminPeriods[staff])
    requires slice in SlicesOf(start, end) && AdminIn(adminPeriods[staff], slice) && Within(day, slice)
    ensures CoversDay(adminPeriods[staff], day)
  {
    SlicesTile(start, end);
    SameMonth(start, end, slice, day);
    TilesCover(Spans(segments), start, end, day);
    var j :| 0 <= j < |segments| && Within(day, Spans(segments)[j]);
    SegmentsFollowMonths(start, end, adminPeriods, segments, day, j);
    assert Within(day, Span(segments[j]));
  }

  lemma AgreeOn(admin: seq<Period>, slice: Period, day: int)
    requires Within(day, slice)
    ensures CoversDay(admin, day) ==> AdminIn(admin, slice)
  {
    if CoversDay(admin, day) {
      var p :| p in admin && Within(day, p);
      assert Overlaps(p, slice);
    }
  }

  /** Resolved administrator periods are month-aligned over their own window. */
  lemma ResolvedAligned(plan: Plan, start: int, end: int, admin: seq<Period>, master: seq<Period>)
    requires DATE_MIN <= start <= end && ResolvedAs(plan, start, end, admin, master)
    ensures MonthAligned(admin, start, end)
  {
    SlicesTile(start, end);
    var runs: seq<Run<Category>> :| RolesFrom(plan, start, end, runs, admin, master);
    forall slice, day | slice in SlicesOf(start, end) && AdminIn(admin, slice) && Within(day, slice)
      ensures CoversDay(admin, day)
    {
      var p :| p in admin && Overlaps(p, slice);
      var j :| 0 <= j < |runs| && runs[j].kind == Administrator && Span(runs[j]) == p;
      assert Spans(runs)[j] == p;
      var shared := if p.start <= slice.start then slice.start else p.start;
      assert Within(shared, p) && Within(shared, slice);
      SameMonth(start, end, slice, shared);
      SameMonth(start, end, slice, day);
      assert CoversDay(admin, shared);
      RolesPartition(plan, start, end, admin, master, shared);
      RolesPartition(plan, start, end, admin, master, day);
    }
  }

  lemma SameMonth(start: int, end: int, slice: Period, day: int)
    requires DATE_MIN <= start <= end && slice in SlicesOf(start, end) && Within(day, slice)
    ensures start <= day <= end && slice == MonthSlice(start, end, MonthOf(day))
  {
    SlicesTile(start, end);
    TilesCover(SlicesOf(start, end), start, end, day);
    SliceOfDay(start, end, day);
  }

  /** Segments built from resolved roles agree with them on every day. */
  lemma ResolvedSegmentsAgree(plan: Plan, start: int, end: int, admin: seq<Period>, master: seq<Period>,
                              adminPeriods: map<int, seq<Period>>, segments: seq<Run<RoleMap>>, staff: int)
    requires DATE_MIN <= start <= end && ResolvedAs(plan, start, end, admin, master)
    requires staff in adminPeriods && adminPeriods[staff] == admin
    requires JoinsRuns(SlicesOf(start, end), SliceRoles(adminPeriods, SlicesOf(start, end)), segments)
    ensures SegmentsAgree(segments, staff, admin)
  {
    ResolvedAligned(plan, start, end, admin, master);
    SegmentsAgreeExactly(start, end, adminPeriods, segments, staff);
  }
}
