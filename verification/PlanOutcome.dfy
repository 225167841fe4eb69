/** What a plan save leaves, told over the request, the stored rows and the people. */
module PlanOutcome {
  import opened Wrappers
  import opened PlanRules

  /** A branch of the request, as its number. */
  predicate IsListed(req: Request, company: int) {
    exists b :: b in req.branches && b.company == company
  }

  // ---------------------------------------------------------------- hand-set values

  /** The values submitted for the branch are the stored ones; where none are stored, none are submitted. */
  predicate IsStoredSetting(plan: Plan, req: Request, b: Setting) {
    var slot := SettingSlot(req.period, b.company);
    b.values == if slot in plan.settings then plan.settings[slot].values else map[]
  }

  /** The person has the saved category and values; a person not saved has no values. */
  predicate IsSavedAs(saved: map<int, Input>, i: Input) {
    if i.staff in saved then i.category == saved[i.staff].category && i.values == saved[i.staff].values
    else i.values == map[]
  }

  predicate IsByHand(m: Metric) {
    m.source.None? || m.source.value != "dashboard_plan_settings"
  }

  /**
   * A hand-set branch value survives a save if and only if the plan is not replaced, the branch's submitted settings
   * are the stored ones, and so is everything submitted for its people.
   */
  lemma BranchValueSurvivesExactly(plan: Plan, req: Request, world: World, f: Formulas, saved: map<int, Input>,
                                   team: set<Input>, now: int, after: Plan, company: int, code: string)
    requires SavedWith(plan, req, world, f, saved, team, now, after) && IsListed(req, company)
    requires var s := Slot(req.period, Key(company, None, code)); s in plan.metrics && IsByHand(plan.metrics[s])
    ensures var s := Slot(req.period, Key(company, None, code));
      s in after.metrics && after.metrics[s] == plan.metrics[s] <==> (
        && !req.replace
        && (forall b | b in req.branches && b.company == company :: IsStoredSetting(plan, req, b))
        && (forall i | i in req.staff && i.company == company :: IsSavedAs(saved, i)))
  {
    var s := Slot(req.period, Key(company, None, code));
    assert Covers(req, s) && HandSet(plan.metrics[s]);
    HandSetSurvivesExactly(plan, req, world, f, saved, team, now, after, s);
    hide SavedWith, HandSet;
    assert forall i :: InputChanged(i, saved) <==> !IsSavedAs(saved, i);
    assert forall b :: SettingChanged(plan.settings, req.period, b) <==> !IsStoredSetting(plan, req, b);
    hide InputChanged, IsSavedAs, SettingChanged, IsStoredSetting;
    assert exists b :: b in req.branches && b.company == company;
  }

  /**
   * A hand-set value of a person survives a save if and only if the plan is not replaced and what was submitted for
   * the person is what was saved.
   */
  lemma StaffValueSurvivesExactly(plan: Plan, req: Request, world: World, f: Formulas, saved: map<int, Input>,
                                  team: set<Input>, now: int, after: Plan, company: int, staff: int, code: string)
    requires SavedWith(plan, req, world, f, saved, team, now, after) && IsListed(req, company)
    requires var s := Slot(req.period, Key(company, Some(staff), code)); s in plan.metrics && IsByHand(plan.metrics[s])
    ensures var s := Slot(req.period, Key(company, Some(staff), code));
      s in after.metrics && after.metrics[s] == plan.metrics[s] <==> (
        && !req.replace
        && (forall i | i in req.staff && i.company == company && i.staff == staff :: IsSavedAs(saved, i)))
  {
    var s := Slot(req.period, Key(company, Some(staff), code));
    assert Covers(req, s) && HandSet(plan.metrics[s]);
    HandSetSurvivesExactly(plan, req, world, f, saved, team, now, after, s);
    hide SavedWith, HandSet;
    assert forall i :: InputChanged(i, saved) <==> !IsSavedAs(saved, i);
  }

  // ---------------------------------------------------------------- what was saved before

  /** A person's input of the month, in a listed branch. */
  predicate HasSavedRow(plan: Plan, req: Request, company: int, staff: int) {
    IsListed(req, company) && InputSlot(req.period, company, staff) in plan.inputs
  }

  /** A metric row of the person that holds an input. */
  predicate IsInputMetric(plan: Plan, req: Request, s: Slot, staff: int) {
    && s in plan.metrics && s.period == req.period && IsListed(req, s.key.company) && s.key.staff == Some(staff)
    && (s.key.code == "clients" || s.key.code == "avg_check_total" || s.key.code == "reviews_qty"
        || s.key.code == "cosmo_qty" || s.key.code == "extra_services_qty" || s.key.code == "extra_services_pct")
  }

  /** None of the person's input metrics was updated later. */
  predicate IsLatest(plan: Plan, req: Request, s: Slot, staff: int)
    requires s in plan.metrics
  {
    forall t | t in plan.metrics && IsInputMetric(plan, req, t, staff) ::
      plan.metrics[t].updated <= plan.metrics[s].updated
  }

  /** The kind of work a position names; whoever is no administrator plans as a barber. */
  function ByPosition(world: World, staff: int): Category {
    if staff in world.people && world.people[staff].position == Some(Administrator) then Administrator else Barber
  }

  /** The stored category where it is one of the two, else the position's. */
  function KeptCategory(stored: Option<Category>, world: World, staff: int): Category {
    if stored == Some(Administrator) then Administrator
    else if stored == Some(Barber) then Barber
    else ByPosition(world, staff)
  }

  ghost predicate IsFromTable(plan: Plan, req: Request, staff: int, i: Input) {
    && HasSavedRow(plan, req, i.company, staff)
    && var row := plan.inputs[InputSlot(req.period, i.company, staff)];
       i == Input(i.company, staff, row.category, row.values)
  }

  ghost predicate IsFromMetrics(plan: Plan, req: Request, world: World, staff: int, i: Input) {
    && i.staff == staff
    && (exists s :: IsInputMetric(plan, req, s, staff) && IsLatest(plan, req, s, staff) && i.company == s.key.company
                    && i.category == KeptCategory(plan.metrics[s].category, world, staff))
    && (forall c :: c in i.values <==> exists s :: IsInputMetric(plan, req, s, staff) && s.key.code == c)
    && (forall c | c in i.values ::
          exists s :: IsInputMetric(plan, req, s, staff) && s.key.code == c && i.values[c] == plan.metrics[s].value)
  }

  lemma SameRows(plan: Plan, req: Request)
    ensures forall company :: Lists(req, company) <==> IsListed(req, company)
    ensures forall s, staff :: DoublesAsInput(plan, req, s, staff) <==> IsInputMetric(plan, req, s, staff)
    ensures forall s, staff | s in plan.metrics :: IsNewest(plan, req, s, staff) <==> IsLatest(plan, req, s, staff)
    ensures forall staff :: InTable(plan, req, staff) <==> exists company :: HasSavedRow(plan, req, company, staff)
  {
    forall s, staff ensures DoublesAsInput(plan, req, s, staff) <==> IsInputMetric(plan, req, s, staff) {
    }
    forall staff ensures InTable(plan, req, staff) <==> exists company :: HasSavedRow(plan, req, company, staff) {
      if k :| HasInput(plan, req, k) && k.staff == staff {
        assert k == InputSlot(req.period, k.company, staff);
        assert HasSavedRow(plan, req, k.company, staff);
      }
      if company :| HasSavedRow(plan, req, company, staff) {
        assert HasInput(plan, req, InputSlot(req.period, company, staff));
      }
    }
  }

  /** Who counts as saved, and as what: by the inputs table, or by the input metrics of whoever is not in it. */
  lemma SnapshotExactly(plan: Plan, req: Request, world: World, saved: map<int, Input>)
    requires IsSnapshot(plan, req, world, saved)
    ensures forall x :: x in saved <==>
      (exists c :: HasSavedRow(plan, req, c, x)) || (exists s :: IsInputMetric(plan, req, s, x))
    ensures forall x | x in saved ::
      if exists c :: HasSavedRow(plan, req, c, x) then IsFromTable(plan, req, x, saved[x])
      else IsFromMetrics(plan, req, world, x, saved[x])
  {
    SameRows(plan, req);
    hide Lists, IsListed, DoublesAsInput, IsInputMetric, IsNewest, IsLatest, InTable, HasSavedRow;
    forall x | x in saved
      ensures if exists c :: HasSavedRow(plan, req, c, x) then IsFromTable(plan, req, x, saved[x])
              else IsFromMetrics(plan, req, world, x, saved[x])
    {
      assert IsSavedInput(plan, req, world, x, saved[x]);
      SavedRow(plan, req, world, x, saved[x]);
    }
  }

  lemma SavedRow(plan: Plan, req: Request, world: World, x: int, i: Input)
    requires i.staff == x
    ensures IsTableInput(plan, req, i) <==> IsFromTable(plan, req, x, i)
    ensures IsRebuiltInput(plan, req, world, i) <==> IsFromMetrics(plan, req, world, x, i)
  {
    SameRows(plan, req);
  }

  // ---------------------------------------------------------------- the team, and whether the request fits

  /** A fired employee whose saved input the request leaves out of a plan that is not replaced. */
  predicate IsLeftOut(req: Request, world: World, saved: map<int, Input>, i: Input) {
    && !req.replace && i.staff in saved && saved[i.staff] == i
    && i.staff in world.people && world.people[i.staff].fired && !world.people[i.staff].account
    && forall j | j in req.staff :: !(j.company == i.company && j.staff == i.staff)
  }

  lemma TeamExactly(req: Request, world: World, saved: map<int, Input>, team: set<Input>)
    requires IsTeam(req, world, saved, team)
    ensures forall i :: i in team <==> i in req.staff || IsLeftOut(req, world, saved, i)
  {
    forall i ensures i in team <==> i in req.staff || IsLeftOut(req, world, saved, i) {
      assert i in team <==> InTeam(req, world, saved, i);
    }
  }

  /** The branches are listed once, each open for planning, and each person comes once, in a listed branch. */
  predicate IsWholeRequest(req: Request, world: World) {
    && |req.branches| > 0
    && (forall x, y | 0 <= x < |req.branches| && 0 <= y < |req.branches| ::
          req.branches[x].company == req.branches[y].company ==> x == y)
    && (forall x, y | 0 <= x < |req.staff| && 0 <= y < |req.staff| ::
          req.staff[x].company == req.staff[y].company && req.staff[x].staff == req.staff[y].staff ==> x == y)
    && (forall i | i in req.staff :: IsListed(req, i.company))
    && (forall b | b in req.branches :: b.company in world.open)
  }

  /** The person belongs to the month and the branch, and plans as saved or else as the position says. */
  predicate BelongsAs(world: World, saved: map<int, Input>, i: Input) {
    && i.staff in world.people && world.people[i.staff].relevant && world.people[i.staff].company == i.company
    && i.category == KeptCategory(if i.staff in saved then Some(saved[i.staff].category) else None, world, i.staff)
  }

  lemma AcceptedExactly(req: Request, world: World, saved: map<int, Input>, team: set<Input>)
    ensures Accepts(req, world, saved, team)
      <==> IsWholeRequest(req, world) && forall i | i in team :: BelongsAs(world, saved, i)
  {
    assert forall company :: Lists(req, company) <==> IsListed(req, company);
    assert WellFormed(req, world) <==> IsWholeRequest(req, world);
    assert forall i :: Fits(world, saved, i) <==> BelongsAs(world, saved, i);
  }

  // ---------------------------------------------------------------- the month afterwards

  /** Other months and branches that are not listed keep every row. */
  ghost predicate LeavesTheRest(plan: Plan, req: Request, after: Plan) {
    && (forall k: SettingSlot | k.period != req.period || !IsListed(req, k.company) ::
          && (k in after.settings <==> k in plan.settings)
          && (k in plan.settings ==> after.settings[k] == plan.settings[k]))
    && (forall k: InputSlot | k.period != req.period || !IsListed(req, k.company) ::
          (k in after.inputs <==> k in plan.inputs) && (k in plan.inputs ==> after.inputs[k] == plan.inputs[k]))
    && (forall s: Slot | s.period != req.period || !IsListed(req, s.key.company) ::
          (s in after.metrics <==> s in plan.metrics) && (s in plan.metrics ==> after.metrics[s] == plan.metrics[s]))
  }

  lemma RestIsLeft(plan: Plan, req: Request, world: World, f: Formulas, saved: map<int, Input>, team: set<Input>,
                   now: int, after: Plan)
    requires SavedWith(plan, req, world, f, saved, team, now, after)
    ensures LeavesTheRest(plan, req, after)
  {
    forall k: SettingSlot | k.period != req.period || !IsListed(req, k.company)
      ensures (k in after.settings <==> k in plan.settings)
        && (k in plan.settings ==> after.settings[k] == plan.settings[k])
    {
      OtherSetting(plan, req, now, after, k);
    }
    forall k: InputSlot | k.period != req.period || !IsListed(req, k.company)
      ensures (k in after.inputs <==> k in plan.inputs) && (k in plan.inputs ==> after.inputs[k] == plan.inputs[k])
    {
      OtherInput(plan, req, team, now, after, k);
    }
    forall s: Slot | s.period != req.period || !IsListed(req, s.key.company)
      ensures (s in after.metrics <==> s in plan.metrics) && (s in plan.metrics ==> after.metrics[s] == plan.metrics[s])
    {
      OtherMetric(plan, req, saved, team, f, now, after, s);
    }
    hide SavedWith;
  }

  lemma OtherSetting(plan: Plan, req: Request, now: int, after: Plan, k: SettingSlot)
    requires SettingAt(plan, req, now, after.settings, k) && (k.period != req.period || !IsListed(req, k.company))
    ensures k in after.settings <==> k in plan.settings
    ensures k in plan.settings ==> after.settings[k] == plan.settings[k]
  {
  }

  lemma OtherInput(plan: Plan, req: Request, team: set<Input>, now: int, after: Plan, k: InputSlot)
    requires InputAt(plan, req, team, now, after.inputs, k) && (k.period != req.period || !IsListed(req, k.company))
    ensures k in after.inputs <==> k in plan.inputs
    ensures k in plan.inputs ==> after.inputs[k] == plan.inputs[k]
  {
  }

  lemma OtherMetric(plan: Plan, req: Request, saved: map<int, Input>, team: set<Input>, f: Formulas, now: int,
                    after: Plan, s: Slot)
    requires MergedAt(plan, req, saved, team, f, now, after.metrics, s)
    requires s.period != req.period || !IsListed(req, s.key.company)
    ensures s in after.metrics <==> s in plan.metrics
    ensures s in plan.metrics ==> after.metrics[s] == plan.metrics[s]
  {
  }

  /** A listed branch keeps its submitted values and nothing else; one without values has no row. */
  lemma SettingsAfter(plan: Plan, req: Request, world: World, f: Formulas, saved: map<int, Input>, team: set<Input>,
                      now: int, after: Plan, b: Setting)
    requires SavedWith(plan, req, world, f, saved, team, now, after) && b in req.branches
    ensures var slot := SettingSlot(req.period, b.company);
      && (slot in after.settings <==> b.values != map[])
      && (slot in after.settings ==> after.settings[slot] == SettingRow(b.values, now))
  {
    var slot := SettingSlot(req.period, b.company);
    assert Lists(req, b.company) && SettingAt(plan, req, now, after.settings, slot);
    if slot in after.settings {
      OneSetting(req, world, b, Setting(b.company, after.settings[slot].values));
    }
  }

  /** A listed branch keeps the inputs of its team, one row each, and no others. */
  lemma InputsAfter(plan: Plan, req: Request, world: World, f: Formulas, saved: map<int, Input>, team: set<Input>,
                    now: int, after: Plan, company: int, staff: int)
    requires SavedWith(plan, req, world, f, saved, team, now, after) && IsListed(req, company)
    ensures var slot := InputSlot(req.period, company, staff);
      && (slot in after.inputs <==> exists i :: i in team && i.company == company && i.staff == staff)
      && (forall i | i in team && i.company == company && i.staff == staff && slot in after.inputs ::
            after.inputs[slot] == InputRow(i.category, i.values, now))
  {
    var slot := InputSlot(req.period, company, staff);
    assert Lists(req, company) && InputAt(plan, req, team, now, after.inputs, slot);
    forall i | i in team && i.company == company && i.staff == staff && slot in after.inputs
      ensures after.inputs[slot] == InputRow(i.category, i.values, now)
    {
      OneInput(req, world, saved, team, i, InputOf(slot, after.inputs[slot]));
    }
  }

  /** The metrics a listed branch gets from its settings and its own people. */
  ghost function BranchMetrics(team: set<Input>, f: Formulas, b: Setting): Values {
    f.branch((set i | i in team && i.company == b.company), b.values)
  }

  predicate IsGenerated(m: Metric, value: real, category: Option<Category>, now: int) {
    m == Metric(value, category, Some("dashboard_plan_settings"), now)
  }

  /**
   * Unless a hand-set value survives there, a branch slot holds the branch's generated metric, under no category, or
   * nothing where none is generated.
   */
  lemma BranchMetricAfter(plan: Plan, req: Request, world: World, f: Formulas, saved: map<int, Input>,
                          team: set<Input>, now: int, after: Plan, b: Setting, code: string)
    requires SavedWith(plan, req, world, f, saved, team, now, after) && b in req.branches
    ensures var (s, vals) := (Slot(req.period, Key(b.company, None, code)), BranchMetrics(team, f, b));
      || (s in plan.metrics && IsByHand(plan.metrics[s]) && s in after.metrics && after.metrics[s] == plan.metrics[s])
      || (&& (s in after.metrics <==> code in vals)
          && (s in after.metrics ==> IsGenerated(after.metrics[s], vals[code], None, now)))
  {
    var (k, vals) := (Key(b.company, None, code), BranchMetrics(team, f, b));
    assert Lists(req, b.company) && MergedAt(plan, req, saved, team, f, now, after.metrics, Slot(req.period, k));
    assert BranchMetrics(team, f, b) == f.branch(BranchTeam(team, b.company), b.values) by {
      assert (set i | i in team && i.company == b.company) == BranchTeam(team, b.company);
    }
    assert code in vals ==> GivesBranch(team, f, b, k, vals[code]) && Generates(req, team, f, k, vals[code]);
    forall v | Generates(req, team, f, k, v) ensures code in vals && v == vals[code] {
      var a :| a in req.branches && GivesBranch(team, f, a, k, v);
      OneSetting(req, world, a, b);
    }
  }

  /** The same for a person's slot: the metric of the person's input under the branch's settings, and category. */
  lemma StaffMetricAfter(plan: Plan, req: Request, world: World, f: Formulas, saved: map<int, Input>,
                         team: set<Input>, now: int, after: Plan, b: Setting, i: Input, code: string)
    requires SavedWith(plan, req, world, f, saved, team, now, after)
    requires b in req.branches && i in team && i.company == b.company
    ensures var (s, vals) := (Slot(req.period, Key(b.company, Some(i.staff), code)), f.person(i, b.values));
      || (s in plan.metrics && IsByHand(plan.metrics[s]) && s in after.metrics && after.metrics[s] == plan.metrics[s])
      || (&& (s in after.metrics <==> code in vals)
          && (s in after.metrics ==> IsGenerated(after.metrics[s], vals[code], Some(i.category), now)))
  {
    var (k, vals) := (Key(b.company, Some(i.staff), code), f.person(i, b.values));
    assert Lists(req, b.company) && MergedAt(plan, req, saved, team, f, now, after.metrics, Slot(req.period, k));
    assert code in vals ==> GivesPerson(i, f, b, k, vals[code]) && Generates(req, team, f, k, vals[code]);
    forall v | Generates(req, team, f, k, v) ensures code in vals && v == vals[code] {
      var a, j :| a in req.branches && j in team && GivesPerson(j, f, a, k, v);
      OneSetting(req, world, a, b);
      OneInput(req, world, saved, team, i, j);
    }
    forall c | HasCategory(team, k, c) ensures c == Some(i.category) {
      var j :| j in team && j.staff == i.staff && c == Some(j.category);
      OneInput(req, world, saved, team, i, j);
    }
  }

  /** A person who is not on the branch's team is left with nothing but surviving hand-set values. */
  lemma NobodysMetricAfter(plan: Plan, req: Request, world: World, f: Formulas, saved: map<int, Input>,
                           team: set<Input>, now: int, after: Plan, s: Slot)
    requires SavedWith(plan, req, world, f, saved, team, now, after)
    requires s.period == req.period && IsListed(req, s.key.company) && s.key.staff.Some?
    requires forall i | i in team :: !(i.company == s.key.company && i.staff == s.key.staff.value)
    requires s in after.metrics
    ensures s in plan.metrics && IsByHand(plan.metrics[s]) && after.metrics[s] == plan.metrics[s]
  {
    assert Covers(req, s) && MergedAt(plan, req, saved, team, f, now, after.metrics, s);
    assert forall v :: !Generates(req, team, f, s.key, v);
  }

  // ---------------------------------------------------------------- saving the same plan again

  /**
   * The second save leaves the same rows: the same settings and inputs, and metrics of the same value, category and
   * source, those set by hand with their time stamp too.
   */
  lemma SecondSaveExactly(plan: Plan, req: Request, world: World, f: Formulas, saved: map<int, Input>,
                          team: set<Input>, now: int, after: Plan, again: Request, saved': map<int, Input>,
                          team': set<Input>, now': int, last: Plan)
    requires SavedWith(plan, req, world, f, saved, team, now, after)
    requires again == req.(replace := false) && SavedWith(after, again, world, f, saved', team', now', last)
    ensures last.settings.Keys == after.settings.Keys && last.inputs.Keys == after.inputs.Keys
    ensures last.metrics.Keys == after.metrics.Keys
    ensures forall k | k in after.settings && k in last.settings :: last.settings[k].values == after.settings[k].values
    ensures forall k | k in after.inputs && k in last.inputs ::
      last.inputs[k].category == after.inputs[k].category && last.inputs[k].values == after.inputs[k].values
    ensures forall s | s in after.metrics && s in last.metrics ::
      && last.metrics[s].value == after.metrics[s].value && last.metrics[s].category == after.metrics[s].category
      && last.metrics[s].source == after.metrics[s].source
      && (IsByHand(after.metrics[s]) ==> last.metrics[s].updated == after.metrics[s].updated)
  {
    SaveTwice(plan, req, world, f, saved, team, now, after, again, saved', team', now', last);
    hide SavedWith;
    forall k | k in after.inputs && k in last.inputs
      ensures last.inputs[k].category == after.inputs[k].category && last.inputs[k].values == after.inputs[k].values
    {
      assert InputOf(k, after.inputs[k]) == InputOf(k, last.inputs[k]);
    }
    forall s | s in after.metrics && s in last.metrics
      ensures last.metrics[s].value == after.metrics[s].value && last.metrics[s].category == after.metrics[s].category
      ensures last.metrics[s].source == after.metrics[s].source
      ensures IsByHand(after.metrics[s]) ==> last.metrics[s].updated == after.metrics[s].updated
    {
      assert SameMetric(after.metrics[s], last.metrics[s]);
    }
  }
}
