/** The plan tables, rewritten by a save that deletes the month's rows and inserts them anew. */
module PlanTable {
  import opened Wrappers
  import opened PlanRules

  datatype SaveError = Invalid | Conflict

  // ---------------------------------------------------------------- inputs rebuilt from metric rows

  ghost predicate HasRow(plan: Plan, req: Request, seen: seq<Slot>, staff: int) {
    exists t :: t in seen && DoublesAsInput(plan, req, t, staff)
  }

  /** The metric rows of `seen`, gathered by person: each field's value and the newest row. */
  ghost predicate Gathered(plan: Plan, req: Request, skip: set<int>, seen: seq<Slot>, fields: map<int, Values>,
                           newest: map<int, Slot>) {
    && (forall s :: s in fields <==> s in newest)
    && (forall s :: s in fields <==> s !in skip && HasRow(plan, req, seen, s))
    && (forall s | s in newest ::
         newest[s] in seen && DoublesAsInput(plan, req, newest[s], s) && NewestOf(plan, req, seen, newest[s], s))
    && (forall s | s in fields :: FieldsOf(plan, req, seen, fields[s], s))
  }

  ghost predicate NewestOf(plan: Plan, req: Request, seen: seq<Slot>, s: Slot, staff: int)
    requires s in plan.metrics
  {
    forall t | t in seen && DoublesAsInput(plan, req, t, staff) :: plan.metrics[t].updated <= plan.metrics[s].updated
  }

  ghost predicate FieldsOf(plan: Plan, req: Request, seen: seq<Slot>, values: Values, staff: int) {
    && (forall c :: c in values <==> exists s :: s in seen && DoublesAsInput(plan, req, s, staff) && s.key.code == c)
    && (forall c | c in values ::
         exists s ::
           s in seen && DoublesAsInput(plan, req, s, staff) && s.key.code == c && values[c] == plan.metrics[s].value)
  }

  lemma RowsOnceMore(plan: Plan, req: Request, seen: seq<Slot>, t: Slot, s: int)
    ensures HasRow(plan, req, seen + [t], s) <==> HasRow(plan, req, seen, s) || DoublesAsInput(plan, req, t, s)
  {
    assert t in seen + [t] && forall u | u in seen :: u in seen + [t];
  }

  /** One more row that is no input of this person. */
  lemma FieldsSkip(plan: Plan, req: Request, seen: seq<Slot>, values: Values, staff: int, t: Slot)
    requires FieldsOf(plan, req, seen, values, staff) && !DoublesAsInput(plan, req, t, staff)
    ensures FieldsOf(plan, req, seen + [t], values, staff)
  {
    forall c
      ensures c in values <==> exists s :: s in seen + [t] && DoublesAsInput(plan, req, s, staff) && s.key.code == c
    {
      if c in values {
        var s :| s in seen && DoublesAsInput(plan, req, s, staff) && s.key.code == c;
        assert s in seen + [t];
      }
    }
    forall c | c in values
      ensures exists s ::
        s in seen + [t] && DoublesAsInput(plan, req, s, staff) && s.key.code == c && values[c] == plan.metrics[s].value
    {
      var s :| s in seen && DoublesAsInput(plan, req, s, staff) && s.key.code == c
        && values[c] == plan.metrics[s].value;
      assert s in seen + [t];
    }
  }

  /** One more row of this person sets its field. */
  lemma FieldsAdd(plan: Plan, req: Request, seen: seq<Slot>, values: Values, staff: int, t: Slot)
    requires FieldsOf(plan, req, seen, values, staff) && DoublesAsInput(plan, req, t, staff)
    ensures FieldsOf(plan, req, seen + [t], values[t.key.code := plan.metrics[t].value], staff)
  {
    var more := values[t.key.code := plan.metrics[t].value];
    assert t in seen + [t];
    forall c
      ensures c in more <==> exists s :: s in seen + [t] && DoublesAsInput(plan, req, s, staff) && s.key.code == c
    {
      if c in values {
        var s :| s in seen && DoublesAsInput(plan, req, s, staff) && s.key.code == c;
        assert s in seen + [t];
      }
    }
    forall c | c in more
      ensures exists s ::
        s in seen + [t] && DoublesAsInput(plan, req, s, staff) && s.key.code == c && more[c] == plan.metrics[s].value
    {
      if c != t.key.code {
        var s :| s in seen && DoublesAsInput(plan, req, s, staff) && s.key.code == c
          && values[c] == plan.metrics[s].value;
        assert s in seen + [t];
      }
    }
  }

  lemma GatherSkip(plan: Plan, req: Request, skip: set<int>, seen: seq<Slot>, fields: map<int, Values>,
                   newest: map<int, Slot>, t: Slot)
    requires Gathered(plan, req, skip, seen, fields, newest)
    requires forall s :: DoublesAsInput(plan, req, t, s) ==> s in skip
    ensures Gathered(plan, req, skip, seen + [t], fields, newest)
  {
    hide FieldsOf;
    forall s
      ensures HasRow(plan, req, seen + [t], s) <==> HasRow(plan, req, seen, s) || DoublesAsInput(plan, req, t, s)
    {
      RowsOnceMore(plan, req, seen, t, s);
    }
    forall s | s in fields ensures FieldsOf(plan, req, seen + [t], fields[s], s) {
      FieldsSkip(plan, req, seen, fields[s], s, t);
    }
  }

  lemma FieldsOfAll(plan: Plan, req: Request, seen: seq<Slot>, fields: map<int, Values>, t: Slot, s: int,
                    fields': map<int, Values>, x: int)
    requires DoublesAsInput(plan, req, t, s) && x in fields'
    requires fields' == fields[s := (if s in fields then fields[s] else map[])[t.key.code := plan.metrics[t].value]]
    requires forall y | y in fields :: FieldsOf(plan, req, seen, fields[y], y)
    requires s in fields <==> HasRow(plan, req, seen, s)
    ensures FieldsOf(plan, req, seen + [t], fields'[x], x)
  {
    NoFields(plan, req, seen, s, s in fields);
    hide FieldsOf;
    if x != s {
      FieldsSkip(plan, req, seen, fields[x], x, t);
    } else {
      FieldsAdd(plan, req, seen, if s in fields then fields[s] else map[], s, t);
    }
  }

  lemma NewestAdd(plan: Plan, req: Request, seen: seq<Slot>, newest: map<int, Slot>, t: Slot, s: int, newest': map<int,
                  Slot>, x: int)
    requires DoublesAsInput(plan, req, t, s) && x in newest'
    requires forall y | y in newest ::
      newest[y] in seen && DoublesAsInput(plan, req, newest[y], y) && NewestOf(plan, req, seen, newest[y], y)
    requires s in newest <==> HasRow(plan, req, seen, s)
    requires newest' ==
      if s !in newest || plan.metrics[newest[s]].updated < plan.metrics[t].updated then newest[s := t] else newest
    ensures newest'[x] in seen + [t] && DoublesAsInput(plan, req, newest'[x], x)
    ensures NewestOf(plan, req, seen + [t], newest'[x], x)
  {
    assert t in seen + [t];
  }

  lemma GatherAdd(plan: Plan, req: Request, skip: set<int>, seen: seq<Slot>, fields: map<int, Values>, newest: map<int,
                  Slot>, t: Slot, s: int,
                  fields': map<int, Values>, newest': map<int, Slot>)
    requires Gathered(plan, req, skip, seen, fields, newest)
    requires DoublesAsInput(plan, req, t, s) && s !in skip
    requires fields' == fields[s := (if s in fields then fields[s] else map[])[t.key.code := plan.metrics[t].value]]
    requires newest' ==
      if s !in newest || plan.metrics[newest[s]].updated < plan.metrics[t].updated then newest[s := t] else newest
    ensures Gathered(plan, req, skip, seen + [t], fields', newest')
  {
    assert forall x | x != s :: !DoublesAsInput(plan, req, t, x);
    hide FieldsOf, NewestOf, DoublesAsInput, HasRow;
    forall x ensures HasRow(plan, req, seen + [t], x) <==> HasRow(plan, req, seen, x) || x == s {
      RowsOnceMore(plan, req, seen, t, x);
    }
    forall x | x in fields' ensures FieldsOf(plan, req, seen + [t], fields'[x], x) {
      FieldsOfAll(plan, req, seen, fields, t, s, fields', x);
    }
    forall x | x in newest'
      ensures newest'[x] in seen + [t] && DoublesAsInput(plan, req, newest'[x], x)
      ensures NewestOf(plan, req, seen + [t], newest'[x], x)
    {
      NewestAdd(plan, req, seen, newest, t, s, newest', x);
    }
  }

  lemma NoFields(plan: Plan, req: Request, seen: seq<Slot>, staff: int, some: bool)
    requires some <==> HasRow(plan, req, seen, staff)
    ensures !some ==> FieldsOf(plan, req, seen, map[], staff)
  {
  }

  /** One row's field goes to its person. */
  method GatherRow(plan: Plan, req: Request, skip: set<int>, ghost seen: seq<Slot>, fields: map<int, Values>,
                   newest: map<int, Slot>, t: Slot)
    returns (fields': map<int, Values>, newest': map<int, Slot>)
    requires Gathered(plan, req, skip, seen, fields, newest)
    ensures Gathered(plan, req, skip, seen + [t], fields', newest')
  {
    NewestIsRow(plan, req, skip, seen, fields, newest);
    hide Gathered, NewestOf, FieldsOf;
    fields', newest' := fields, newest;
    if t.key.staff.Some? && t.key.staff.value !in skip && DoublesAsInput(plan, req, t, t.key.staff.value) {
      var s := t.key.staff.value;
      fields' := fields[s := (if s in fields then fields[s] else map[])[t.key.code := plan.metrics[t].value]];
      if s !in newest || plan.metrics[newest[s]].updated < plan.metrics[t].updated {
        newest' := newest[s := t];
      }
      GatherAdd(plan, req, skip, seen, fields, newest, t, s, fields', newest');
    } else {
      GatherSkip(plan, req, skip, seen, fields, newest, t);
    }
  }

  lemma GatherNothing(plan: Plan, req: Request, skip: set<int>)
    ensures Gathered(plan, req, skip, [], map[], map[])
  {
  }

  ghost predicate AllRows(plan: Plan, seen: seq<Slot>) {
    forall s :: s in seen <==> s in plan.metrics
  }

  ghost predicate GatheredAll(plan: Plan, req: Request, skip: set<int>, fields: map<int, Values>, newest: map<int,
                              Slot>) {
    exists seen: seq<Slot> :: AllRows(plan, seen) && Gathered(plan, req, skip, seen, fields, newest)
  }

  /** The persons' fields and newest rows, row by row. */
  method Gather(plan: Plan, req: Request, skip: set<int>) returns (fields: map<int, Values>, newest: map<int, Slot>)
    ensures GatheredAll(plan, req, skip, fields, newest)
  {
    hide Gathered;
    var order := Elements(plan.metrics.Keys);
    fields, newest := map[], map[];
    GatherNothing(plan, req, skip);
    assert order[..0] == [];
    for i := 0 to |order|
      invariant Gathered(plan, req, skip, order[..i], fields, newest)
    {
      assert order[..i + 1] == order[..i] + [order[i]];
      fields, newest := GatherRow(plan, req, skip, order[..i], fields, newest, order[i]);
    }
    assert order[..|order|] == order;
    assert AllRows(plan, order);
  }

  lemma NewestIsRow(plan: Plan, req: Request, skip: set<int>, seen: seq<Slot>, fields: map<int, Values>,
                    newest: map<int, Slot>)
    requires Gathered(plan, req, skip, seen, fields, newest)
    ensures forall s | s in newest :: newest[s] in plan.metrics && s in fields
  {
  }

  /** `_plan_settings_snapshot`: the inputs table first, the metric rows for whoever is not in it. */
  method Snapshot(plan: Plan, req: Request, world: World) returns (saved: map<int, Input>)
    ensures IsSnapshot(plan, req, world, saved)
  {
    hide *;
    var table := ReadTable(plan, req);
    var fields, newest := Gather(plan, req, table.Keys);
    GatheredPeople(plan, req, table.Keys, fields, newest);
    var people := Elements(fields.Keys);
    saved := table;
    for i := 0 to |people|
      invariant forall s :: s in saved <==> s in table || s in people[..i]
      invariant forall s | s in table :: saved[s] == table[s]
      invariant forall s | s in people[..i] :: saved[s].staff == s && IsRebuiltInput(plan, req, world, saved[s])
    {
      var s := people[i];
      assert s in people && s !in people[..i] && people[..i + 1] == people[..i] + [s];
      saved := saved[s := Rebuild(plan, world, newest[s], fields[s], s)];
      Rebuilt(plan, req, world, table.Keys, fields, newest, s);
    }
    assert people[..|people|] == people;
    IsWhole(plan, req, world, table, fields, saved);
  }

  lemma GatheredPeople(plan: Plan, req: Request, skip: set<int>, fields: map<int, Values>, newest: map<int, Slot>)
    requires GatheredAll(plan, req, skip, fields, newest)
    ensures forall s :: s in fields <==> s !in skip && exists t :: DoublesAsInput(plan, req, t, s)
    ensures forall s | s in fields :: s in newest && newest[s] in plan.metrics
  {
    hide FieldsOf, NewestOf;
    var seen: seq<Slot> :| AllRows(plan, seen) && Gathered(plan, req, skip, seen, fields, newest);
    forall s, t | s !in skip && DoublesAsInput(plan, req, t, s) ensures s in fields {
      assert t in seen && HasRow(plan, req, seen, s);
    }
  }

  lemma IsWhole(plan: Plan, req: Request, world: World, table: map<int, Input>, fields: map<int, Values>,
                saved: map<int, Input>)
    requires forall s :: s in table <==> InTable(plan, req, s)
    requires forall s | s in table :: table[s].staff == s && IsTableInput(plan, req, table[s])
    requires forall s :: s in fields <==> s !in table && exists t :: DoublesAsInput(plan, req, t, s)
    requires forall s :: s in saved <==> s in table || s in fields
    requires forall s | s in table :: saved[s] == table[s]
    requires forall s | s in fields :: saved[s].staff == s && IsRebuiltInput(plan, req, world, saved[s])
    ensures IsSnapshot(plan, req, world, saved)
  {
    hide InTable, IsTableInput, IsRebuiltInput, DoublesAsInput;
    forall s | s in saved ensures IsSavedInput(plan, req, world, s, saved[s]) {
      assert s in table <==> InTable(plan, req, s);
    }
  }

  function Rebuild(plan: Plan, world: World, row: Slot, fields: Values, staff: int): (i: Input)
    requires row in plan.metrics
    ensures i.staff == staff
  {
    Input(row.key.company, staff, RebuiltCategory(plan.metrics[row], world, staff), fields)
  }

  lemma Rebuilt(plan: Plan, req: Request, world: World, skip: set<int>, fields: map<int, Values>, newest: map<int,
                Slot>, s: int)
    requires GatheredAll(plan, req, skip, fields, newest) && s in fields
    ensures s in newest && newest[s] in plan.metrics
    ensures IsRebuiltInput(plan, req, world, Rebuild(plan, world, newest[s], fields[s], s))
  {
    var seen: seq<Slot> :| AllRows(plan, seen) && Gathered(plan, req, skip, seen, fields, newest);
    assert GivesIdentity(plan, req, world, newest[s], Rebuild(plan, world, newest[s], fields[s], s));
    assert FieldsOf(plan, req, seen, fields[s], s);
  }

  /** A person's saved input, the last one read where the table has several. */
  method ReadTable(plan: Plan, req: Request) returns (table: map<int, Input>)
    ensures forall s :: s in table <==> InTable(plan, req, s)
    ensures forall s | s in table :: table[s].staff == s && IsTableInput(plan, req, table[s])
  {
    var order := Elements(plan.inputs.Keys);
    table := map[];
    for i := 0 to |order|
      invariant forall s :: s in table <==> exists k :: k in order[..i] && HasInput(plan, req, k) && k.staff == s
      invariant forall s | s in table :: table[s].staff == s && IsTableInput(plan, req, table[s])
    {
      var k := order[i];
      assert k in order && order[..i + 1] == order[..i] + [k];
      if HasInput(plan, req, k) {
        table := table[k.staff := InputOf(k, plan.inputs[k])];
        assert k == InputSlot(req.period, k.company, k.staff);
      }
      forall s ensures s in table <==> exists j :: j in order[..i + 1] && HasInput(plan, req, j) && j.staff == s {
        if j :| j in order[..i] && HasInput(plan, req, j) && j.staff == s {
          assert j in order[..i + 1];
        }
        assert k in order[..i + 1];
      }
    }
    assert order[..|order|] == order;
    forall s ensures s in table <==> InTable(plan, req, s) {
      if k :| HasInput(plan, req, k) && k.staff == s {
        assert k in order;
      }
    }
  }

  /** The submitted staff, and the fired people the editor does not list. */
  method CarryOver(req: Request, world: World, saved: map<int, Input>) returns (team: set<Input>)
    requires forall s | s in saved :: saved[s].staff == s
    ensures IsTeam(req, world, saved, team)
  {
    team := set i | i in req.staff;
    var people := Elements(saved.Keys);
    for k := 0 to |people|
      invariant forall i ::
        i in team <==> i in req.staff || (i.staff in people[..k] && InTeam(req, world, saved, i))
    {
      assert people[k] in people && people[..k + 1] == people[..k] + [people[k]];
      if IsCarried(req, world, saved, people[k]) {
        team := team + {saved[people[k]]};
      }
    }
    assert people[..|people|] == people;
    forall i ensures i in team <==> InTeam(req, world, saved, i) {
      assert IsCarried(req, world, saved, i.staff) ==> i.staff in people;
    }
  }

  // ---------------------------------------------------------------- the metrics the plan generates

  datatype Value = Value(value: real, category: Option<Category>)

  ghost predicate FromBranch(team: set<Input>, f: Formulas, b: Setting, k: Key) {
    exists v :: GivesBranch(team, f, b, k, v)
  }

  ghost predicate FromPerson(f: Formulas, b: Setting, i: Input, k: Key) {
    exists v :: GivesPerson(i, f, b, k, v)
  }

  /** The values of one branch. */
  method BranchValues(team: set<Input>, f: Formulas, b: Setting) returns (made: map<Key, Value>)
    ensures forall k :: k in made <==> FromBranch(team, f, b, k)
    ensures forall k | k in made :: GivesBranch(team, f, b, k, made[k].value) && made[k].category.None?
  {
    var vals := f.branch(BranchTeam(team, b.company), b.values);
    var codes := Elements(vals.Keys);
    made := map[];
    for j := 0 to |codes|
      invariant forall k :: k in made <==> k.company == b.company && k.staff.None? && k.code in codes[..j]
      invariant forall k | k in made :: k.code in vals && made[k] == Value(vals[k.code], None)
    {
      assert codes[j] in codes && codes[..j + 1] == codes[..j] + [codes[j]];
      made := made[Key(b.company, None, codes[j]) := Value(vals[codes[j]], None)];
    }
    assert codes[..|codes|] == codes;
    forall k ensures k in made <==> FromBranch(team, f, b, k) {
      if k in made {
        assert GivesBranch(team, f, b, k, made[k].value);
      }
      if v :| GivesBranch(team, f, b, k, v) {
        assert k.code in codes;
      }
    }
  }

  /** The values of one person, under the settings of the person's branch. */
  method PersonValues(f: Formulas, b: Setting, i: Input) returns (made: map<Key, Value>)
    requires b.company == i.company
    ensures forall k :: k in made <==> FromPerson(f, b, i, k)
    ensures forall k | k in made :: GivesPerson(i, f, b, k, made[k].value) && made[k].category == Some(i.category)
  {
    var vals := f.person(i, b.values);
    var codes := Elements(vals.Keys);
    made := map[];
    for j := 0 to |codes|
      invariant forall k :: k in made <==> k.company == b.company && k.staff == Some(i.staff) && k.code in codes[..j]
      invariant forall k | k in made :: k.code in vals && made[k] == Value(vals[k.code], Some(i.category))
    {
      assert codes[j] in codes && codes[..j + 1] == codes[..j] + [codes[j]];
      made := made[Key(b.company, Some(i.staff), codes[j]) := Value(vals[codes[j]], Some(i.category))];
    }
    assert codes[..|codes|] == codes;
    forall k ensures k in made <==> FromPerson(f, b, i, k) {
      if k in made {
        assert GivesPerson(i, f, b, k, made[k].value);
      }
      if v :| GivesPerson(i, f, b, k, v) {
        assert k.code in codes;
      }
    }
  }

  /** The settings of a listed branch. */
  method FindSetting(branches: seq<Setting>, company: int) returns (b: Setting)
    requires exists b :: b in branches && b.company == company
    ensures b in branches && b.company == company
  {
    var x := 0;
    while branches[x].company != company
      invariant 0 <= x < |branches| && forall y | 0 <= y < x :: branches[y].company != company
      decreases |branches| - x
    {
      x := x + 1;
    }
    b := branches[x];
  }

  ghost predicate IsValueOf(req: Request, team: set<Input>, f: Formulas, k: Key, v: Value) {
    Generates(req, team, f, k, v.value) && HasCategory(team, k, v.category)
  }

  ghost predicate ByBranches(branches: seq<Setting>, team: set<Input>, f: Formulas, k: Key) {
    exists b :: b in branches && FromBranch(team, f, b, k)
  }

  ghost predicate ByPerson(branches: seq<Setting>, f: Formulas, i: Input, k: Key) {
    exists b :: b in branches && FromPerson(f, b, i, k)
  }

  ghost predicate ByPeople(branches: seq<Setting>, people: seq<Input>, f: Formulas, k: Key) {
    exists i :: i in people && ByPerson(branches, f, i, k)
  }

  lemma OneMoreBranch(branches: seq<Setting>, team: set<Input>, f: Formulas, b: Setting, k: Key)
    ensures ByBranches(branches + [b], team, f, k) <==> ByBranches(branches, team, f, k) || FromBranch(team, f, b, k)
  {
    hide FromBranch;
    assert b in branches + [b] && forall a | a in branches :: a in branches + [b];
  }

  lemma OneMorePerson(branches: seq<Setting>, people: seq<Input>, f: Formulas, i: Input, k: Key)
    ensures ByPeople(branches, people + [i], f, k) <==> ByPeople(branches, people, f, k) || ByPerson(branches, f, i, k)
  {
    hide ByPerson;
    assert i in people + [i] && forall a | a in people :: a in people + [i];
  }

  lemma BranchValueOf(req: Request, team: set<Input>, f: Formulas, b: Setting, k: Key, v: Value)
    requires b in req.branches && GivesBranch(team, f, b, k, v.value) && v.category.None?
    ensures IsValueOf(req, team, f, k, v)
  {
  }

  lemma PersonValueOf(req: Request, team: set<Input>, f: Formulas, b: Setting, i: Input, k: Key, v: Value)
    requires b in req.branches && i in team && GivesPerson(i, f, b, k, v.value) && v.category == Some(i.category)
    ensures IsValueOf(req, team, f, k, v)
  {
  }

  /** The rows of the branches. */
  method CalculateBranches(req: Request, team: set<Input>, f: Formulas) returns (made: map<Key, Value>)
    ensures forall k :: k in made <==> ByBranches(req.branches, team, f, k)
    ensures forall k | k in made :: IsValueOf(req, team, f, k, made[k])
  {
    made := map[];
    for n := 0 to |req.branches|
      invariant forall k :: k in made <==> ByBranches(req.branches[..n], team, f, k)
      invariant forall k | k in made :: IsValueOf(req, team, f, k, made[k])
    {
      hide *;
      var b := req.branches[n];
      assert b in req.branches && req.branches[..n + 1] == req.branches[..n] + [b];
      var more := BranchValues(team, f, b);
      forall k | k in more ensures IsValueOf(req, team, f, k, more[k]) {
        BranchValueOf(req, team, f, b, k, more[k]);
      }
      forall k
        ensures ByBranches(req.branches[..n + 1], team, f, k)
          <==> ByBranches(req.branches[..n], team, f, k) || FromBranch(team, f, b, k)
      {
        OneMoreBranch(req.branches[..n], team, f, b, k);
      }
      made := made + more;
    }
    assert req.branches[..|req.branches|] == req.branches;
  }

  lemma OneBranchPerPerson(req: Request, world: World, f: Formulas, b: Setting, i: Input, k: Key)
    requires WellFormed(req, world) && b in req.branches && b.company == i.company
    ensures ByPerson(req.branches, f, i, k) <==> FromPerson(f, b, i, k)
  {
    if ByPerson(req.branches, f, i, k) {
      var a :| a in req.branches && FromPerson(f, a, i, k);
      OneSetting(req, world, a, b);
    }
  }

  /** The rows of the people. */
  method CalculatePeople(req: Request, world: World, team: set<Input>, f: Formulas)
    returns (made: map<Key, Value>, ghost order: seq<Input>)
    requires WellFormed(req, world) && forall i | i in team :: Lists(req, i.company)
    ensures forall i :: i in order <==> i in team
    ensures forall k :: k in made <==> ByPeople(req.branches, order, f, k)
    ensures forall k | k in made :: IsValueOf(req, team, f, k, made[k])
  {
    var people := Elements(team);
    order := people;
    made := map[];
    for n := 0 to |people|
      invariant forall k :: k in made <==> ByPeople(req.branches, people[..n], f, k)
      invariant forall k | k in made :: IsValueOf(req, team, f, k, made[k])
    {
      var i := people[n];
      assert i in people && people[..n + 1] == people[..n] + [i];
      assert Lists(req, i.company);
      hide *;
      var b := FindSetting(req.branches, i.company);
      var more := PersonValues(f, b, i);
      forall k | k in more ensures IsValueOf(req, team, f, k, more[k]) {
        PersonValueOf(req, team, f, b, i, k, more[k]);
      }
      forall k
        ensures ByPeople(req.branches, people[..n + 1], f, k)
          <==> ByPeople(req.branches, people[..n], f, k) || FromPerson(f, b, i, k)
      {
        OneMorePerson(req.branches, people[..n], f, i, k);
        OneBranchPerPerson(req, world, f, b, i, k);
      }
      made := made + more;
    }
    assert people[..|people|] == people;
  }

  lemma GeneratesByKind(req: Request, team: set<Input>, order: seq<Input>, f: Formulas, k: Key)
    requires forall i :: i in order <==> i in team
    ensures ByBranches(req.branches, team, f, k) || ByPeople(req.branches, order, f, k)
      <==> exists v :: Generates(req, team, f, k, v)
  {
    if ByPeople(req.branches, order, f, k) {
      var i :| i in order && ByPerson(req.branches, f, i, k);
      var b :| b in req.branches && FromPerson(f, b, i, k);
      var v :| GivesPerson(i, f, b, k, v);
      assert Generates(req, team, f, k, v);
    }
    if ByBranches(req.branches, team, f, k) {
      var b :| b in req.branches && FromBranch(team, f, b, k);
      var v :| GivesBranch(team, f, b, k, v);
      assert Generates(req, team, f, k, v);
    }
    if v :| Generates(req, team, f, k, v) {
      if b :| b in req.branches && GivesBranch(team, f, b, k, v) {
        assert FromBranch(team, f, b, k);
      } else {
        var b, i :| b in req.branches && i in team && GivesPerson(i, f, b, k, v);
        assert FromPerson(f, b, i, k);
        assert ByPerson(req.branches, f, i, k);
      }
    }
  }

  /** `_calculate_plan_settings_metrics`: every branch row and every staff row the settings and inputs give. */
  method Calculate(req: Request, world: World, team: set<Input>, f: Formulas) returns (made: map<Key, Value>)
    requires WellFormed(req, world) && forall i | i in team :: Lists(req, i.company)
    ensures forall k :: k in made <==> exists v :: Generates(req, team, f, k, v)
    ensures forall k | k in made :: IsValueOf(req, team, f, k, made[k])
  {
    hide *;
    var branchRows := CalculateBranches(req, team, f);
    var staffRows, order := CalculatePeople(req, world, team, f);
    made := branchRows + staffRows;
    forall k ensures k in made <==> exists v :: Generates(req, team, f, k, v) {
      GeneratesByKind(req, team, order, f, k);
    }
  }

  // ---------------------------------------------------------------- the rewrite

  ghost predicate IsGeneratedRow(req: Request, team: set<Input>, f: Formulas, now: int, k: Key, m: Metric) {
    Generates(req, team, f, k, m.value) && HasCategory(team, k, m.category)
    && m.source == Some(SETTINGS_SOURCE) && m.updated == now
  }

  /** A generated key is one of the request's branches, and a replacing save counts it as edited. */
  lemma GeneratedIsCovered(plan: Plan, req: Request, world: World, saved: map<int, Input>, team: set<Input>,
                           f: Formulas, k: Key)
    requires IsTeam(req, world, saved, team) && exists v :: Generates(req, team, f, k, v)
    ensures Lists(req, k.company)
    ensures req.replace ==> KeyEdited(req, plan.settings, saved, k)
  {
    var v :| Generates(req, team, f, k, v);
    if b :| b in req.branches && GivesBranch(team, f, b, k, v) {
    } else {
      var b, i :| b in req.branches && i in team && GivesPerson(i, f, b, k, v);
      assert InTeam(req, world, saved, i);
    }
  }

  /** The rows of `written` stand in the cleared month. */
  ghost predicate HalfWritten(plan: Plan, req: Request, team: set<Input>, f: Formulas, now: int, written: set<Key>,
                              rows: Metrics) {
    && (forall s :: s in rows <==> (if Covers(req, s) then s.key in written else s in plan.metrics))
    && (forall s | s in rows && Covers(req, s) :: IsGeneratedRow(req, team, f, now, s.key, rows[s]))
    && (forall s | s in rows && !Covers(req, s) :: rows[s] == plan.metrics[s])
  }

  /** A generated key is written unless a hand-set value nobody edited stands there. */
  predicate IsWritten(plan: Plan, req: Request, saved: map<int, Input>, legacy: set<Slot>, k: Key) {
    Slot(req.period, k) in legacy ==> KeyEdited(req, plan.settings, saved, k)
  }

  lemma RowOfValue(req: Request, team: set<Input>, f: Formulas, now: int, k: Key, v: Value)
    requires IsValueOf(req, team, f, k, v)
    ensures IsGeneratedRow(req, team, f, now, k, Metric(v.value, v.category, Some(SETTINGS_SOURCE), now))
  {
    hide Generates, HasCategory;
  }

  lemma WriteOne(plan: Plan, req: Request, team: set<Input>, f: Formulas, now: int, written: set<Key>, rows: Metrics,
                 k: Key, row: Metric)
    requires HalfWritten(plan, req, team, f, now, written, rows)
    requires k !in written && Lists(req, k.company) && IsGeneratedRow(req, team, f, now, k, row)
    ensures Slot(req.period, k) !in rows
    ensures HalfWritten(plan, req, team, f, now, written + {k}, rows[Slot(req.period, k) := row])
  {
    hide IsGeneratedRow, Lists;
    assert Covers(req, Slot(req.period, k));
  }

  predicate IsOwnSetting(req: Request, k: SettingSlot) {
    k.period == req.period && Lists(req, k.company)
  }

  predicate IsOwnInput(req: Request, k: InputSlot) {
    k.period == req.period && Lists(req, k.company)
  }

  /** One slot of the settings once the branches in `done` are written over the cleared month. */
  ghost predicate SettingSoFar(plan: Plan, req: Request, done: seq<Setting>, now: int, rows: Settings, k: SettingSlot) {
    if !IsOwnSetting(req, k) then (k in rows <==> k in plan.settings) && (k in rows ==> rows[k] == plan.settings[k])
    else
      && (k in rows <==> exists b :: b in done && b.company == k.company && b.values != map[])
      && (k in rows ==> Setting(k.company, rows[k].values) in done && rows[k].updated == now)
  }

  lemma SettingWritten(plan: Plan, req: Request, world: World, n: nat, now: int, rows: Settings)
    requires WellFormed(req, world) && n < |req.branches|
    requires forall k :: SettingSoFar(plan, req, req.branches[..n], now, rows, k)
    ensures var (b, done) := (req.branches[n], req.branches[..n] + [req.branches[n]]);
      var slot := SettingSlot(req.period, b.company);
      var after := if b.values == map[] then rows else rows[slot := SettingRow(b.values, now)];
      (b.values != map[] ==> slot !in rows) && forall k :: SettingSoFar(plan, req, done, now, after, k)
  {
    var (b, done) := (req.branches[n], req.branches[..n] + [req.branches[n]]);
    var slot := SettingSlot(req.period, b.company);
    var after := if b.values == map[] then rows else rows[slot := SettingRow(b.values, now)];
    assert b in req.branches && b in done && forall a | a in req.branches[..n] :: a in done && a.company != b.company;
    assert SettingSoFar(plan, req, req.branches[..n], now, rows, slot);
    hide WellFormed;
    forall k ensures SettingSoFar(plan, req, done, now, after, k) {
      assert SettingSoFar(plan, req, req.branches[..n], now, rows, k);
    }
  }

  /** One slot of the inputs once the people in `done` are written over the cleared month. */
  ghost predicate InputSoFar(plan: Plan, req: Request, done: seq<Input>, now: int, rows: Inputs, k: InputSlot) {
    if !IsOwnInput(req, k) then (k in rows <==> k in plan.inputs) && (k in rows ==> rows[k] == plan.inputs[k])
    else
      && (k in rows <==> exists i :: i in done && i.company == k.company && i.staff == k.staff)
      && (k in rows ==> InputOf(k, rows[k]) in done && rows[k].updated == now)
  }

  lemma InputWritten(plan: Plan, req: Request, done: seq<Input>, now: int, rows: Inputs, i: Input)
    requires Lists(req, i.company) && forall a | a in done :: a.staff != i.staff
    requires forall k :: InputSoFar(plan, req, done, now, rows, k)
    ensures var (slot, more) := (InputSlot(req.period, i.company, i.staff), done + [i]);
      var after := rows[slot := InputRow(i.category, i.values, now)];
      slot !in rows && forall k :: InputSoFar(plan, req, more, now, after, k)
  {
    var slot := InputSlot(req.period, i.company, i.staff);
    var after := rows[slot := InputRow(i.category, i.values, now)];
    assert i in done + [i] && forall a | a in done :: a in done + [i];
    assert InputSoFar(plan, req, done, now, rows, slot) && InputOf(slot, after[slot]) == i;
    hide Lists;
    var more := done + [i];
    forall k ensures InputSoFar(plan, req, more, now, after, k) {
      assert InputSoFar(plan, req, done, now, rows, k);
    }
  }

  class Table {
    var settings: Settings
    var inputs: Inputs
    var metrics: Metrics

    ghost function Now(): Plan
      reads this
    {
      Plan(settings, inputs, metrics)
    }

    /**
     * The month's branch settings are deleted and the ones with values inserted; `clash` is a refusal by the unique
     * index.
     */
    method RewriteSettings(ghost plan: Plan, req: Request, world: World, now: int) returns (clash: bool)
      requires plan.settings == settings && WellFormed(req, world)
      modifies this`settings
      ensures !clash && forall k :: SettingAt(plan, req, now, settings, k)
    {
      settings := map k | k in settings && !IsOwnSetting(req, k) :: settings[k];
      clash := false;
      assert forall k :: SettingSoFar(plan, req, [], now, settings, k);
      for n := 0 to |req.branches|
        invariant !clash && forall k :: SettingSoFar(plan, req, req.branches[..n], now, settings, k)
      {
        hide SettingSoFar, WellFormed;
        var b := req.branches[n];
        assert req.branches[..n + 1] == req.branches[..n] + [b];
        SettingWritten(plan, req, world, n, now, settings);
        if b.values != map[] {
          var k := SettingSlot(req.period, b.company);
          clash := clash || k in settings;
          settings := settings[k := SettingRow(b.values, now)];
        }
      }
      assert req.branches[..|req.branches|] == req.branches;
      forall k ensures SettingAt(plan, req, now, settings, k) {
        assert SettingSoFar(plan, req, req.branches, now, settings, k);
      }
    }

    /** The month's staff inputs are deleted and the team's inserted. */
    method RewriteInputs(ghost plan: Plan, req: Request, team: set<Input>, now: int) returns (clash: bool)
      requires plan.inputs == inputs
      requires forall i | i in team :: Lists(req, i.company)
      requires forall i, j | i in team && j in team && i.staff == j.staff :: i == j
      modifies this`inputs
      ensures !clash && forall k :: InputAt(plan, req, team, now, inputs, k)
    {
      inputs := map k | k in inputs && !IsOwnInput(req, k) :: inputs[k];
      clash := false;
      var order := Elements(team);
      assert forall k :: InputSoFar(plan, req, [], now, inputs, k);
      for n := 0 to |order|
        invariant !clash && forall k :: InputSoFar(plan, req, order[..n], now, inputs, k)
      {
        hide InputSoFar, Lists;
        var i := order[n];
        assert i in order && order[..n + 1] == order[..n] + [i];
        assert forall a | a in order[..n] :: a in order && a != i;
        InputWritten(plan, req, order[..n], now, inputs, i);
        var k := InputSlot(req.period, i.company, i.staff);
        clash := clash || k in inputs;
        inputs := inputs[k := InputRow(i.category, i.values, now)];
      }
      assert order[..|order|] == order;
      forall k ensures InputAt(plan, req, team, now, inputs, k) {
        assert InputSoFar(plan, req, order, now, inputs, k);
      }
    }

    /** Generated rows go in, except where a hand-set value stands that nobody edited. */
    method WriteGenerated(plan: Plan, req: Request, world: World, saved: map<int, Input>, team: set<Input>, f: Formulas,
                          made: map<Key, Value>, legacy: set<Slot>, now: int)
      returns (clash: bool, written: set<Key>)
      requires forall s :: s in legacy <==> s in plan.metrics && Covers(req, s) && HandSet(plan.metrics[s])
      requires forall s :: s in metrics <==> s in plan.metrics && !Covers(req, s)
      requires forall s | s in metrics :: metrics[s] == plan.metrics[s]
      requires forall k | k in made :: Lists(req, k.company) && IsValueOf(req, team, f, k, made[k])
      modifies this`metrics
      ensures !clash && HalfWritten(plan, req, team, f, now, written, metrics)
      ensures forall k :: k in written <==> k in made && IsWritten(plan, req, saved, legacy, k)
    {
      clash, written := false, {};
      assert HalfWritten(plan, req, team, f, now, written, metrics);
      var keys := Elements(made.Keys);
      for n := 0 to |keys|
        invariant !clash && HalfWritten(plan, req, team, f, now, written, metrics)
        invariant forall k :: k in written <==> k in keys[..n] && IsWritten(plan, req, saved, legacy, k)
      {
        hide HalfWritten, KeyEdited, IsGeneratedRow, IsValueOf;
        var k := keys[n];
        assert k in keys && k !in keys[..n] && keys[..n + 1] == keys[..n] + [k];
        var s := Slot(req.period, k);
        if !IsWritten(plan, req, saved, legacy, k) {
          continue;
        }
        var row := Metric(made[k].value, made[k].category, Some(SETTINGS_SOURCE), now);
        RowOfValue(req, team, f, now, k, made[k]);
        WriteOne(plan, req, team, f, now, written, metrics, k, row);
        written := written + {k};
        clash := clash || s in metrics;
        metrics := metrics[s := row];
      }
      assert keys[..|keys|] == keys;
    }

    /**
     * Hand-set rows go back, except where the plan is replaced, the key was generated, or its branch or person was
     * edited.
     */
    method RestoreHandSet(plan: Plan, req: Request, saved: map<int, Input>, legacy: set<Slot>, written: set<Key>)
      returns (clash: bool)
      requires forall s :: s in legacy <==> s in plan.metrics && Covers(req, s) && HandSet(plan.metrics[s])
      requires forall s | s in metrics && Covers(req, s) :: s.key in written
      modifies this`metrics
      ensures !clash
      ensures forall s ::
        s in metrics <==> s in old(metrics) || (IsKept(plan, req, saved, s) && Covers(req, s) && s.key !in written)
      ensures forall s | s in old(metrics) :: s in metrics && metrics[s] == old(metrics)[s]
      ensures forall s | s in metrics && s !in old(metrics) :: s in plan.metrics && metrics[s] == plan.metrics[s]
    {
      clash := false;
      ghost var before := metrics;
      var rows := Elements(legacy);
      for n := 0 to |rows|
        invariant !clash
        invariant forall s ::
          s in metrics <==> s in before || (s in rows[..n] && IsKept(plan, req, saved, s) && s.key !in written)
        invariant forall s | s in metrics ::
          (s in before || s in plan.metrics) && metrics[s] == if s in before then before[s] else plan.metrics[s]
      {
        hide KeyEdited;
        var s := rows[n];
        assert s in rows && s !in rows[..n] && rows[..n + 1] == rows[..n] + [s];
        if req.replace || s.key in written || KeyEdited(req, plan.settings, saved, s.key) {
          continue;
        }
        clash := clash || s in metrics;
        metrics := metrics[s := plan.metrics[s]];
      }
      assert rows[..|rows|] == rows;
    }

    /** The month's metric rows are deleted, generated anew, and the untouched hand-set ones put back. */
    method RewriteMetrics(plan: Plan, req: Request, world: World, saved: map<int, Input>, team: set<Input>,
                          f: Formulas, now: int)
      returns (clash: bool)
      requires plan.metrics == metrics && IsTeam(req, world, saved, team) && WellFormed(req, world)
      requires forall i | i in team :: Lists(req, i.company)
      modifies this`metrics
      ensures !clash && forall s :: MergedAt(plan, req, saved, team, f, now, metrics, s)
    {
      hide Generates, KeyEdited, HasCategory, WellFormed, InTeam, Lists, IsTeam;
      var made := Calculate(req, world, team, f);
      forall k | k in made ensures Lists(req, k.company) && (req.replace ==> KeyEdited(req, plan.settings, saved, k)) {
        GeneratedIsCovered(plan, req, world, saved, team, f, k);
      }
      var legacy := set s | s in metrics && Covers(req, s) && HandSet(metrics[s]);
      metrics := map s | s in metrics && !Covers(req, s) :: metrics[s];
      var written;
      clash, written := WriteGenerated(plan, req, world, saved, team, f, made, legacy, now);
      var clash' := RestoreHandSet(plan, req, saved, legacy, written);
      clash := clash || clash';
    }

    /**
     * `save_plan_settings`: refused before anything is written, or the whole month rewritten; never a clash with the
     * unique indexes.
     */
    method Save(req: Request, world: World, f: Formulas, now: int)
      returns (r: Result<(), SaveError>, ghost saved: map<int, Input>, ghost team: set<Input>)
      modifies this
      ensures r.Success? ==> SavedWith(old(Now()), req, world, f, saved, team, now, Now())
      ensures r.Failure? ==> r.error == Invalid && Now() == old(Now())
      ensures IsSnapshot(old(Now()), req, world, saved) && IsTeam(req, world, saved, team)
      ensures r.Success? <==> Accepts(req, world, saved, team)
    {
      var plan := Plan(settings, inputs, metrics);
      var read := Snapshot(plan, req, world);
      var all := CarryOver(req, world, read);
      saved, team := read, all;
      if !Accepts(req, world, read, all) {
        return Failure(Invalid), read, all;
      }
      forall i | i in all ensures Lists(req, i.company) {
        TeamListed(plan, req, world, read, all, i);
      }
      forall i, j | i in all && j in all && i.staff == j.staff ensures i == j {
        OneInput(req, world, read, all, i, j);
      }
      var a := RewriteSettings(plan, req, world, now);
      var b := RewriteInputs(plan, req, all, now);
      var c := RewriteMetrics(plan, req, world, read, all, f, now);
      r := if a || b || c then Failure(Conflict) else Success(());
    }
  }
}
