/**
 * A plan month: the branch settings and staff inputs an editor saves, and the metric rows generated from them or set
 * by hand.
 */
module PlanRules {
  import opened Wrappers

  /** `Other` is a stored category text that names neither kind of work. */
  datatype Category = Administrator | Barber | Other(text: string)

  datatype Period = Period(start: int, end: int)

  /** The unique index of the metric rows: a branch row has no staff. */
  datatype Key = Key(company: int, staff: Option<int>, code: string)

  datatype Slot = Slot(period: Period, key: Key)

  datatype Metric = Metric(value: real, category: Option<Category>, source: Option<string>, updated: int)

  type Metrics = map<Slot, Metric>

  /** Fields that have a value. */
  type Values = map<string, real>

  datatype Setting = Setting(company: int, values: Values)

  datatype SettingSlot = SettingSlot(period: Period, company: int)

  datatype SettingRow = SettingRow(values: Values, updated: int)

  type Settings = map<SettingSlot, SettingRow>

  datatype Input = Input(company: int, staff: int, category: Category, values: Values)

  datatype InputSlot = InputSlot(period: Period, company: int, staff: int)

  datatype InputRow = InputRow(category: Category, values: Values, updated: int)

  type Inputs = map<InputSlot, InputRow>

  datatype Plan = Plan(settings: Settings, inputs: Inputs, metrics: Metrics)

  datatype Request = Request(period: Period, branches: seq<Setting>, staff: seq<Input>, replace: bool)

  /**
   * `position` is the category the position names; `account` marks the position of a portal account that is not staff.
   */
  datatype Person = Person(company: int, fired: bool, account: bool, position: Option<Category>, relevant: bool)

  /** `open`: branches the editor may plan for this month. */
  datatype World = World(open: set<int>, people: map<int, Person>)

  /** How a person's and a branch's metric values follow from the inputs. */
  datatype Formulas = Formulas(person: (Input, Values) -> Values, branch: (set<Input>, Values) -> Values)

  const SETTINGS_SOURCE := "dashboard_plan_settings"

  const INPUT_FIELDS: set<string> :=
    {"clients", "avg_check_total", "reviews_qty", "cosmo_qty", "extra_services_qty", "extra_services_pct"}

  predicate HandSet(m: Metric) {
    m.source != Some(SETTINGS_SOURCE)
  }

  predicate IsPlanned(c: Category) {
    c.Administrator? || c.Barber?
  }

  /** A person plans as before, else by position; only administrators are not barbers. */
  function PlanCategory(position: Option<Category>, before: Option<Category>): Category {
    var known := if before.Some? && IsPlanned(before.value) then before else position;
    if known == Some(Administrator) then Administrator else Barber
  }

  // ---------------------------------------------------------------- what the save is about

  predicate Lists(req: Request, company: int) {
    exists b :: b in req.branches && b.company == company
  }

  predicate Covers(req: Request, s: Slot) {
    s.period == req.period && Lists(req, s.key.company)
  }

  function InputOf(k: InputSlot, row: InputRow): Input {
    Input(k.company, k.staff, row.category, row.values)
  }

  predicate HasInput(plan: Plan, req: Request, k: InputSlot) {
    k in plan.inputs && k.period == req.period && Lists(req, k.company)
  }

  /** A metric row that doubles as an input of a person saved before inputs were kept. */
  predicate DoublesAsInput(plan: Plan, req: Request, s: Slot, staff: int) {
    s in plan.metrics && Covers(req, s) && s.key.staff == Some(staff) && s.key.code in INPUT_FIELDS
  }

  ghost predicate IsTableInput(plan: Plan, req: Request, i: Input) {
    var k := InputSlot(req.period, i.company, i.staff);
    HasInput(plan, req, k) && InputOf(k, plan.inputs[k]) == i
  }

  predicate GivesIdentity(plan: Plan, req: Request, world: World, s: Slot, i: Input)
    requires s in plan.metrics
  {
    IsNewest(plan, req, s, i.staff) && i.company == s.key.company
    && i.category == RebuiltCategory(plan.metrics[s], world, i.staff)
  }

  /** The newest of a person's rows gives the branch and the category, every row its field. */
  ghost predicate IsRebuiltInput(plan: Plan, req: Request, world: World, i: Input) {
    && (exists s :: DoublesAsInput(plan, req, s, i.staff) && GivesIdentity(plan, req, world, s, i))
    && (forall f :: f in i.values <==> exists s :: DoublesAsInput(plan, req, s, i.staff) && s.key.code == f)
    && (forall f | f in i.values ::
         exists s :: DoublesAsInput(plan, req, s, i.staff) && s.key.code == f && i.values[f] == plan.metrics[s].value)
  }

  predicate IsNewest(plan: Plan, req: Request, s: Slot, staff: int)
    requires s in plan.metrics
  {
    forall t | t in plan.metrics && DoublesAsInput(plan, req, t, staff) ::
      plan.metrics[t].updated <= plan.metrics[s].updated
  }

  function RebuiltCategory(m: Metric, world: World, staff: int): Category {
    if m.category.Some? && IsPlanned(m.category.value) then m.category.value
    else PlanCategory(if staff in world.people then world.people[staff].position else None, None)
  }

  ghost predicate InTable(plan: Plan, req: Request, staff: int) {
    exists k :: HasInput(plan, req, k) && k.staff == staff
  }

  ghost predicate IsSavedInput(plan: Plan, req: Request, world: World, staff: int, i: Input) {
    i.staff == staff
    && if InTable(plan, req, staff) then IsTableInput(plan, req, i) else IsRebuiltInput(plan, req, world, i)
  }

  /** `saved` is what the month's staff inputs are read as before the save. */
  ghost predicate IsSnapshot(plan: Plan, req: Request, world: World, saved: map<int, Input>) {
    && (forall s :: s in saved <==> InTable(plan, req, s) || exists t :: DoublesAsInput(plan, req, t, s))
    && (forall s | s in saved :: IsSavedInput(plan, req, world, s, saved[s]))
  }

  // ---------------------------------------------------------------- who was edited, who is carried over

  predicate InputChanged(i: Input, saved: map<int, Input>) {
    if i.staff !in saved then i.values != map[]
    else i.category != saved[i.staff].category || i.values != saved[i.staff].values
  }

  predicate StaffEdited(req: Request, saved: map<int, Input>, company: int, staff: int) {
    exists i :: i in req.staff && i.company == company && i.staff == staff && (req.replace || InputChanged(i, saved))
  }

  predicate SettingChanged(settings: Settings, period: Period, b: Setting) {
    var k := SettingSlot(period, b.company);
    if k !in settings then b.values != map[] else b.values != settings[k].values
  }

  predicate BranchEdited(req: Request, settings: Settings, saved: map<int, Input>, company: int) {
    || (exists b ::
         b in req.branches && b.company == company && (req.replace || SettingChanged(settings, req.period, b)))
    || (exists i :: i in req.staff && i.company == company && (req.replace || InputChanged(i, saved)))
  }

  predicate KeyEdited(req: Request, settings: Settings, saved: map<int, Input>, k: Key) {
    match k.staff
    case None => BranchEdited(req, settings, saved, k.company)
    case Some(s) => StaffEdited(req, saved, k.company, s)
  }

  predicate IsFired(world: World, staff: int) {
    staff in world.people && world.people[staff].fired && !world.people[staff].account
  }

  predicate Submitted(req: Request, company: int, staff: int) {
    exists i :: i in req.staff && i.company == company && i.staff == staff
  }

  /** A fired person the editor does not list keeps the saved input, unless the plan is replaced. */
  predicate IsCarried(req: Request, world: World, saved: map<int, Input>, staff: int) {
    !req.replace && staff in saved && IsFired(world, staff) && !Submitted(req, saved[staff].company, staff)
  }

  ghost predicate InTeam(req: Request, world: World, saved: map<int, Input>, i: Input) {
    i in req.staff || (IsCarried(req, world, saved, i.staff) && saved[i.staff] == i)
  }

  ghost predicate IsTeam(req: Request, world: World, saved: map<int, Input>, team: set<Input>) {
    forall i :: i in team <==> InTeam(req, world, saved, i)
  }

  predicate Fits(world: World, saved: map<int, Input>, i: Input) {
    && i.staff in world.people && world.people[i.staff].relevant && world.people[i.staff].company == i.company
    && i.category == PlanCategory(world.people[i.staff].position,
                                 if i.staff in saved then Some(saved[i.staff].category) else None)
  }

  predicate WellFormed(req: Request, world: World) {
    && req.branches != []
    && (forall x, y | 0 <= x < y < |req.branches| :: req.branches[x].company != req.branches[y].company)
    && (forall x, y | 0 <= x < y < |req.staff| ::
      !(req.staff[x].company == req.staff[y].company && req.staff[x].staff == req.staff[y].staff))
    && (forall i | i in req.staff :: Lists(req, i.company))
    && (forall b | b in req.branches :: b.company in world.open)
  }

  predicate Accepts(req: Request, world: World, saved: map<int, Input>, team: set<Input>) {
    WellFormed(req, world) && forall i | i in team :: Fits(world, saved, i)
  }

  // ---------------------------------------------------------------- what the save leaves

  function BranchTeam(team: set<Input>, company: int): set<Input> {
    set i | i in team && i.company == company
  }

  predicate GivesBranch(team: set<Input>, f: Formulas, b: Setting, k: Key, v: real) {
    && b.company == k.company && k.staff.None?
    && var vals := f.branch(BranchTeam(team, b.company), b.values);
       k.code in vals && vals[k.code] == v
  }

  predicate GivesPerson(i: Input, f: Formulas, b: Setting, k: Key, v: real) {
    && b.company == i.company == k.company && k.staff == Some(i.staff)
    && var vals := f.person(i, b.values);
       k.code in vals && vals[k.code] == v
  }

  /** The settings and inputs give this metric this value. */
  ghost predicate Generates(req: Request, team: set<Input>, f: Formulas, k: Key, v: real) {
    || (exists b :: b in req.branches && GivesBranch(team, f, b, k, v))
    || (exists b, i :: b in req.branches && i in team && GivesPerson(i, f, b, k, v))
  }

  predicate HasCategory(team: set<Input>, k: Key, category: Option<Category>) {
    match k.staff
    case None => category == None
    case Some(s) => exists i :: i in team && i.staff == s && category == Some(i.category)
  }

  /** A hand-set row the save leaves alone. */
  predicate IsKept(plan: Plan, req: Request, saved: map<int, Input>, s: Slot) {
    && s in plan.metrics && HandSet(plan.metrics[s]) && !req.replace
    && !KeyEdited(req, plan.settings, saved, s.key)
  }

  ghost predicate MergedAt(plan: Plan, req: Request, saved: map<int, Input>, team: set<Input>, f: Formulas, now: int,
                           after: Metrics, s: Slot) {
    if !Covers(req, s) || IsKept(plan, req, saved, s) then
      (s in after <==> s in plan.metrics) && (s in after ==> after[s] == plan.metrics[s])
    else
      && (s in after <==> exists v :: Generates(req, team, f, s.key, v))
      && (s in after ==> (
        && Generates(req, team, f, s.key, after[s].value) && HasCategory(team, s.key, after[s].category)
        && after[s].source == Some(SETTINGS_SOURCE) && after[s].updated == now))
  }

  ghost predicate SettingAt(plan: Plan, req: Request, now: int, after: Settings, k: SettingSlot) {
    if k.period != req.period || !Lists(req, k.company) then
      (k in after <==> k in plan.settings) && (k in after ==> after[k] == plan.settings[k])
    else
      && (k in after <==> exists b :: b in req.branches && b.company == k.company && b.values != map[])
      && (k in after ==> Setting(k.company, after[k].values) in req.branches && after[k].updated == now)
  }

  ghost predicate InputAt(plan: Plan, req: Request, team: set<Input>, now: int, after: Inputs, k: InputSlot) {
    if k.period != req.period || !Lists(req, k.company) then
      (k in after <==> k in plan.inputs) && (k in after ==> after[k] == plan.inputs[k])
    else
      && (k in after <==> exists i :: i in team && i.company == k.company && i.staff == k.staff)
      && (k in after ==> InputOf(k, after[k]) in team && after[k].updated == now)
  }

  /** `after` is the plan an accepted save leaves. */
  ghost predicate SavedWith(plan: Plan, req: Request, world: World, f: Formulas, saved: map<int, Input>,
                            team: set<Input>, now: int, after: Plan) {
    && IsSnapshot(plan, req, world, saved) && IsTeam(req, world, saved, team) && Accepts(req, world, saved, team)
    && (forall k :: SettingAt(plan, req, now, after.settings, k))
    && (forall k :: InputAt(plan, req, team, now, after.inputs, k))
    && (forall s :: MergedAt(plan, req, saved, team, f, now, after.metrics, s))
  }

  // ---------------------------------------------------------------- hand-set values

  /**
   * A hand-set value survives a save exactly when the plan is not replaced and its branch row or staff row was not
   * edited.
   */
  lemma HandSetSurvivesExactly(plan: Plan, req: Request, world: World, f: Formulas, saved: map<int, Input>,
                               team: set<Input>, now: int, after: Plan, s: Slot)
    requires SavedWith(plan, req, world, f, saved, team, now, after)
    requires s in plan.metrics && HandSet(plan.metrics[s]) && Covers(req, s)
    ensures s in after.metrics && after.metrics[s] == plan.metrics[s]
      <==> !req.replace && !KeyEdited(req, plan.settings, saved, s.key)
  {
    assert MergedAt(plan, req, saved, team, f, now, after.metrics, s);
  }

  // ---------------------------------------------------------------- saving the same plan again

  /** Two plans that differ at most in when their generated rows were written. */
  ghost predicate SamePlan(a: Plan, b: Plan) {
    && (forall k :: k in a.settings <==> k in b.settings)
    && (forall k | k in a.settings :: a.settings[k].values == b.settings[k].values)
    && (forall k :: k in a.inputs <==> k in b.inputs)
    && (forall k | k in a.inputs :: InputOf(k, a.inputs[k]) == InputOf(k, b.inputs[k]))
    && (forall s :: s in a.metrics <==> s in b.metrics)
    && (forall s | s in a.metrics :: SameMetric(a.metrics[s], b.metrics[s]))
  }

  predicate SameMetric(a: Metric, b: Metric) {
    if HandSet(a) then a == b else a.(updated := 0) == b.(updated := 0)
  }

  lemma OneSetting(req: Request, world: World, a: Setting, b: Setting)
    requires WellFormed(req, world) && a in req.branches && b in req.branches && a.company == b.company
    ensures a == b
  {
    var x :| 0 <= x < |req.branches| && req.branches[x] == a;
    var y :| 0 <= y < |req.branches| && req.branches[y] == b;
  }

  /** A person is on the team once. */
  lemma OneInput(req: Request, world: World, saved: map<int, Input>, team: set<Input>, a: Input, b: Input)
    requires IsTeam(req, world, saved, team) && Accepts(req, world, saved, team)
    requires a in team && b in team && a.staff == b.staff
    ensures a == b
  {
    assert Fits(world, saved, a) && Fits(world, saved, b);
    assert InTeam(req, world, saved, a) && InTeam(req, world, saved, b);
    if a in req.staff && b in req.staff {
      var x :| 0 <= x < |req.staff| && req.staff[x] == a;
      var y :| 0 <= y < |req.staff| && req.staff[y] == b;
    }
  }

  lemma OneValue(req: Request, world: World, saved: map<int, Input>, team: set<Input>, f: Formulas, k: Key, v: real,
                 w: real)
    requires IsTeam(req, world, saved, team) && Accepts(req, world, saved, team)
    requires Generates(req, team, f, k, v) && Generates(req, team, f, k, w)
    ensures v == w
  {
    if k.staff.None? {
      var a :| a in req.branches && GivesBranch(team, f, a, k, v);
      var b :| b in req.branches && GivesBranch(team, f, b, k, w);
      OneSetting(req, world, a, b);
    } else {
      var a, i :| a in req.branches && i in team && GivesPerson(i, f, a, k, v);
      var b, j :| b in req.branches && j in team && GivesPerson(j, f, b, k, w);
      OneSetting(req, world, a, b);
      OneInput(req, world, saved, team, i, j);
    }
  }

  lemma OneCategory(req: Request, world: World, saved: map<int, Input>, team: set<Input>, k: Key, c: Option<Category>,
                    d: Option<Category>)
    requires IsTeam(req, world, saved, team) && Accepts(req, world, saved, team)
    requires HasCategory(team, k, c) && HasCategory(team, k, d)
    ensures c == d
  {
    if k.staff.Some? {
      var i :| i in team && i.staff == k.staff.value && c == Some(i.category);
      var j :| j in team && j.staff == k.staff.value && d == Some(j.category);
      OneInput(req, world, saved, team, i, j);
    }
  }

  /** The second save reads every team member back as the first one wrote it. */
  lemma ReadsBack(plan: Plan, req: Request, world: World, f: Formulas, saved: map<int, Input>, team: set<Input>,
                  now: int, after: Plan,
                  again: Request, saved': map<int, Input>, i: Input)
    requires SavedWith(plan, req, world, f, saved, team, now, after)
    requires again == req.(replace := false) && IsSnapshot(after, again, world, saved')
    requires i in team
    ensures Lists(req, i.company)
    ensures i.staff in saved' && saved'[i.staff] == i
  {
    TeamListed(plan, req, world, saved, team, i);
    var k := InputSlot(req.period, i.company, i.staff);
    assert InputAt(plan, req, team, now, after.inputs, k);
    OneInput(req, world, saved, team, i, InputOf(k, after.inputs[k]));
    assert HasInput(after, again, k);
    var j := saved'[i.staff];
    assert IsTableInput(after, again, j);
    var kj := InputSlot(req.period, j.company, j.staff);
    assert InputAt(plan, req, team, now, after.inputs, kj);
    OneInput(req, world, saved, team, i, j);
  }

  lemma TeamListed(plan: Plan, req: Request, world: World, saved: map<int, Input>, team: set<Input>, i: Input)
    requires IsSnapshot(plan, req, world, saved) && IsTeam(req, world, saved, team) && Accepts(req, world, saved, team)
    requires i in team
    ensures Lists(req, i.company)
  {
    assert InTeam(req, world, saved, i);
  }

  /** The second save finds nothing edited. */
  lemma NothingEdited(plan: Plan, req: Request, world: World, f: Formulas, saved: map<int, Input>, team: set<Input>,
                      now: int, after: Plan,
                      again: Request, saved': map<int, Input>, k: Key)
    requires SavedWith(plan, req, world, f, saved, team, now, after)
    requires again == req.(replace := false) && IsSnapshot(after, again, world, saved')
    ensures !KeyEdited(again, after.settings, saved', k)
  {
    forall i | i in req.staff ensures !InputChanged(i, saved') {
      assert InTeam(req, world, saved, i);
      ReadsBack(plan, req, world, f, saved, team, now, after, again, saved', i);
    }
    forall b | b in req.branches ensures !SettingChanged(after.settings, req.period, b) {
      var slot := SettingSlot(req.period, b.company);
      assert Lists(req, b.company);
      assert SettingAt(plan, req, now, after.settings, slot);
      if slot in after.settings {
        OneSetting(req, world, b, Setting(b.company, after.settings[slot].values));
      }
    }
  }

  /** Whoever the second save carries over was already on the team. */
  lemma CarriedWasOnTeam(plan: Plan, req: Request, world: World, f: Formulas, saved: map<int, Input>, team: set<Input>,
                         now: int, after: Plan,
                         again: Request, saved': map<int, Input>, s: int)
    requires SavedWith(plan, req, world, f, saved, team, now, after)
    requires again == req.(replace := false) && IsSnapshot(after, again, world, saved')
    requires IsCarried(again, world, saved', s)
    ensures saved'[s] in team
  {
    if InTable(after, again, s) {
      var i := saved'[s];
      assert IsTableInput(after, again, i);
      assert InputAt(plan, req, team, now, after.inputs, InputSlot(req.period, i.company, i.staff));
    } else {
      var t :| DoublesAsInput(after, again, t, s);
      assert Covers(req, t) && MergedAt(plan, req, saved, team, f, now, after.metrics, t);
      if IsKept(plan, req, saved, t) {
        assert DoublesAsInput(plan, req, t, s);
        assert s in saved;
        if Submitted(req, saved[s].company, s) {
          var i :| i in req.staff && i.company == saved[s].company && i.staff == s;
          assert InTeam(req, world, saved, i);
          WrittenInput(plan, req, world, f, saved, team, now, after, again, i);
        } else {
          assert InTeam(req, world, saved, saved[s]);
          WrittenInput(plan, req, world, f, saved, team, now, after, again, saved[s]);
        }
      } else {
        var v :| Generates(req, team, f, t.key, v);
        var b, i :| b in req.branches && i in team && GivesPerson(i, f, b, t.key, v);
        WrittenInput(plan, req, world, f, saved, team, now, after, again, i);
      }
    }
  }

  lemma WrittenInput(plan: Plan, req: Request, world: World, f: Formulas, saved: map<int, Input>, team: set<Input>,
                     now: int, after: Plan,
                     again: Request, i: Input)
    requires SavedWith(plan, req, world, f, saved, team, now, after) && again == req.(replace := false) && i in team
    ensures InTable(after, again, i.staff)
  {
    TeamListed(plan, req, world, saved, team, i);
    var k := InputSlot(req.period, i.company, i.staff);
    assert InputAt(plan, req, team, now, after.inputs, k);
    assert HasInput(after, again, k);
  }

  /** The second save is accepted. */
  lemma AcceptedAgain(plan: Plan, req: Request, world: World, f: Formulas, saved: map<int, Input>, team: set<Input>,
                      now: int, after: Plan,
                      again: Request, saved': map<int, Input>)
    requires SavedWith(plan, req, world, f, saved, team, now, after)
    requires again == req.(replace := false) && IsSnapshot(after, again, world, saved')
    ensures IsTeam(again, world, saved', team) && Accepts(again, world, saved', team)
  {
    forall i ensures i in team <==> InTeam(again, world, saved', i) {
      assert i in team <==> InTeam(req, world, saved, i);
      if i in team {
        ReadsBack(plan, req, world, f, saved, team, now, after, again, saved', i);
      }
      if InTeam(again, world, saved', i) && i !in req.staff {
        CarriedWasOnTeam(plan, req, world, f, saved, team, now, after, again, saved', i.staff);
      }
    }
    forall i | i in team ensures Fits(world, saved', i) {
      assert Fits(world, saved, i);
      ReadsBack(plan, req, world, f, saved, team, now, after, again, saved', i);
    }
  }

  lemma SameTeam(plan: Plan, req: Request, world: World, f: Formulas, saved: map<int, Input>, team: set<Input>,
                 now: int, after: Plan,
                 again: Request, saved': map<int, Input>, team': set<Input>)
    requires SavedWith(plan, req, world, f, saved, team, now, after)
    requires again == req.(replace := false) && IsSnapshot(after, again, world, saved')
    requires IsTeam(again, world, saved', team')
    ensures team' == team
  {
    AcceptedAgain(plan, req, world, f, saved, team, now, after, again, saved');
    forall i ensures i in team' <==> i in team {
      assert (i in team' <==> InTeam(again, world, saved', i)) && (i in team <==> InTeam(again, world, saved', i));
    }
  }

  /** A row of the first save at one slot is the row of the second. */
  lemma SameAt(plan: Plan, req: Request, world: World, f: Formulas, saved: map<int, Input>, team: set<Input>, now: int,
               after: Plan,
               again: Request, saved': map<int, Input>, now': int, last: Plan, s: Slot)
    requires SavedWith(plan, req, world, f, saved, team, now, after)
    requires again == req.(replace := false) && SavedWith(after, again, world, f, saved', team, now', last)
    ensures s in last.metrics <==> s in after.metrics
    ensures s in last.metrics ==> SameMetric(after.metrics[s], last.metrics[s])
  {
    NothingEdited(plan, req, world, f, saved, team, now, after, again, saved', s.key);
    assert MergedAt(plan, req, saved, team, f, now, after.metrics, s);
    assert MergedAt(after, again, saved', team, f, now', last.metrics, s);
    assert Covers(req, s) <==> Covers(again, s);
    assert forall v :: Generates(again, team, f, s.key, v) <==> Generates(req, team, f, s.key, v);
    if Covers(req, s) && s in after.metrics && s in last.metrics && !HandSet(after.metrics[s]) {
      var a, b := after.metrics[s], last.metrics[s];
      OneValue(req, world, saved, team, f, s.key, a.value, b.value);
      OneCategory(req, world, saved, team, s.key, a.category, b.category);
    }
  }

  /**
   * Saving the same plan again changes nothing but the time stamps of the rows it generates, even after a replacing
   * save.
   */
  lemma SaveTwice(plan: Plan, req: Request, world: World, f: Formulas, saved: map<int, Input>, team: set<Input>,
                  now: int, after: Plan,
                  again: Request, saved': map<int, Input>, team': set<Input>, now': int, last: Plan)
    requires SavedWith(plan, req, world, f, saved, team, now, after)
    requires again == req.(replace := false) && SavedWith(after, again, world, f, saved', team', now', last)
    ensures SamePlan(after, last)
  {
    SameTeam(plan, req, world, f, saved, team, now, after, again, saved', team');
    forall s
      ensures (s in after.metrics <==> s in last.metrics)
      ensures (s in after.metrics ==> SameMetric(after.metrics[s], last.metrics[s]))
    {
      SameAt(plan, req, world, f, saved, team, now, after, again, saved', now', last, s);
    }
    forall k
      ensures (k in after.inputs <==> k in last.inputs)
      ensures (k in after.inputs ==> InputOf(k, after.inputs[k]) == InputOf(k, last.inputs[k]))
    {
      assert InputAt(plan, req, team, now, after.inputs, k);
      assert InputAt(after, again, team, now', last.inputs, k);
      if k in after.inputs && k in last.inputs && k.period == req.period && Lists(req, k.company) {
        OneInput(req, world, saved, team, InputOf(k, after.inputs[k]), InputOf(k, last.inputs[k]));
      }
    }
    forall k
      ensures (k in after.settings <==> k in last.settings)
      ensures (k in after.settings ==> after.settings[k].values == last.settings[k].values)
    {
      assert SettingAt(plan, req, now, after.settings, k);
      assert SettingAt(after, again, now', last.settings, k);
      if k in after.settings && k in last.settings && k.period == req.period && Lists(req, k.company) {
        OneSetting(req, world, Setting(k.company, after.settings[k].values),
                   Setting(k.company, last.settings[k].values));
      }
    }
  }
}
