/** What becomes of a batch of hand-entered facts, told over the posted rows, what is stored, and who may edit what. */
module FactOutcome {
  import opened Wrappers
  import opened FactRows
  import opened FactSaves

  type Posts = map<Key, Post>

  type Values = map<Key, Option<int>>

  /** A row of a branch the actor was not given. */
  predicate SomeOutside(posts: Posts, access: Access) {
    exists k :: k in posts && access.companies.Some? && k.company !in access.companies.value
  }

  /** A row of somebody else, for an actor who only reports for some rows. */
  predicate SomeForeign(posts: Posts, access: Access) {
    exists k :: k in posts && access.allowed.Some? && k !in access.allowed.value
  }

  /** A value was shown in a row that is not open and holds nothing now. */
  predicate SomeClosedShown(posts: Posts, shown: Values, access: Access) {
    exists k :: k in posts && k in shown && k !in access.open && shown[k].None? && posts[k].previous.Some?
  }

  /** A value was typed into a row that is not open and holds nothing. */
  predicate SomeClosedTyped(posts: Posts, shown: Values, access: Access) {
    exists k :: k in posts && k in shown && k !in access.open && shown[k].None? && posts[k].value.Some?
  }

  /**
   * The row now shows something else than its editor saw, and the editor means to change it, or is too old to say and
   * posts nothing over it.
   */
  predicate ChangedMeanwhile(p: Post, current: Option<int>) {
    || (p.value != p.previous && current != p.previous && (p.versioned || p.value != current))
    || (p.value == p.previous && current.Some? && !p.versioned)
  }

  predicate SomeChangedMeanwhile(posts: Posts, shown: Values) {
    exists k :: k in posts && k in shown && ChangedMeanwhile(posts[k], shown[k])
  }

  /** The value differs from what its editor saw and, for an old editor that does not say, from what is there. */
  predicate IsTyped(p: Post, current: Option<int>) {
    p.value != p.previous && (!p.versioned ==> p.value != current)
  }

  predicate SomeTyped(posts: Posts, shown: Values) {
    exists k :: k in posts && k in shown && IsTyped(posts[k], shown[k])
  }

  /** A change in a branch that left the tenant before the month. */
  predicate SomeDeparted(posts: Posts, shown: Values, access: Access) {
    exists k :: k in posts && k in shown && IsTyped(posts[k], shown[k]) && k.company in access.departed
  }

  predicate ShownInClosed(posts: Posts, shown: Values, access: Access) {
    !SomeOutside(posts, access) && SomeClosedShown(posts, shown, access)
  }

  predicate TypedInClosed(posts: Posts, shown: Values, access: Access) {
    && !SomeOutside(posts, access) && !SomeClosedShown(posts, shown, access) && SomeClosedTyped(posts, shown, access)
  }

  predicate OnlyForeign(posts: Posts, shown: Values, access: Access) {
    && !SomeOutside(posts, access) && !SomeClosedShown(posts, shown, access) && !SomeClosedTyped(posts, shown, access)
    && SomeForeign(posts, access)
  }

  /** The actor may post all these rows. */
  predicate MayEdit(posts: Posts, shown: Values, access: Access) {
    && !SomeOutside(posts, access) && !SomeClosedShown(posts, shown, access) && !SomeClosedTyped(posts, shown, access)
    && !SomeForeign(posts, access)
  }

  predicate IsFresh(posts: Posts, shown: Values, access: Access) {
    MayEdit(posts, shown, access) && !SomeChangedMeanwhile(posts, shown)
  }

  /** Each verdict comes exactly when its check is the first to fail; a batch is written exactly when none does. */
  lemma VerdictExactly(posts: Posts, shown: Values, access: Access)
    requires shown.Keys == posts.Keys
    ensures Judge(posts, shown, access) == NotAllowed <==> SomeOutside(posts, access)
    ensures Judge(posts, shown, access) == Conflict
      <==> ShownInClosed(posts, shown, access) || (MayEdit(posts, shown, access) && SomeChangedMeanwhile(posts, shown))
    ensures Judge(posts, shown, access) == NotOpen
      <==> TypedInClosed(posts, shown, access) || (IsFresh(posts, shown, access) && SomeDeparted(posts, shown, access))
    ensures Judge(posts, shown, access) == Foreign <==> OnlyForeign(posts, shown, access)
    ensures Judge(posts, shown, access) == Untouched <==> IsFresh(posts, shown, access) && !SomeTyped(posts, shown)
    ensures Judge(posts, shown, access).Write?
      <==> IsFresh(posts, shown, access) && SomeTyped(posts, shown) && !SomeDeparted(posts, shown, access)
  {
    assert forall k :: k in shown <==> k in posts;
    assert posts.Keys != {} ==> Any(posts.Keys) in posts;
    assert SomeForeign(posts, access) <==> access.allowed.Some? && !(posts.Keys <= access.allowed.value);
    var changes := Changes(posts, shown);
    assert forall k :: k in changes <==> k in posts && IsTyped(posts[k], shown[k]);
    assert changes.Keys != {} ==> Any(changes.Keys) in changes;
    assert changes.Keys == {} ==> changes == map[];
  }

  /** What a written batch changes: the rows typed into, each open or holding a value, to the values posted. */
  lemma WrittenExactly(posts: Posts, shown: Values, access: Access)
    requires shown.Keys == posts.Keys && Judge(posts, shown, access).Write?
    ensures var changes := Judge(posts, shown, access).changes;
      && (forall k :: k in changes <==> k in posts && IsTyped(posts[k], shown[k]))
      && (forall k | k in changes :: changes[k] == posts[k].value && Permits(access, k, shown[k]))
  {
    forall k | k in posts && IsTyped(posts[k], shown[k]) ensures Permits(access, k, shown[k]) {
      PermittedRow(posts, shown, access, k);
    }
  }

  /** The actor may change a row that shows `current`. */
  predicate Permits(access: Access, k: Key, current: Option<int>) {
    && (access.companies.Some? ==> k.company in access.companies.value)
    && (access.allowed.Some? ==> k in access.allowed.value)
    && (k in access.open || current.Some?)
    && k.company !in access.departed
  }

  lemma PermittedRow(posts: Posts, shown: Values, access: Access, k: Key)
    requires shown.Keys == posts.Keys && Judge(posts, shown, access).Write?
    requires k in posts && IsTyped(posts[k], shown[k])
    ensures Permits(access, k, shown[k])
  {
    VerdictExactly(posts, shown, access);
    hide Judge;
    assert k in shown;
  }

  /** What is shown of a sum is the nearest whole number, halves away from zero. */
  lemma RoundedExactly(x: real)
    ensures var shown := RoundHalfUp(x) as real;
      && (0.0 <= x ==> x - 0.5 < shown <= x + 0.5)
      && (x <= 0.0 ==> x - 0.5 <= shown < x + 0.5)
  {
  }

  // ---------------------------------------------------------------- over every interleaving

  /** Step `m` began the save that is open as `i`, and the save still carries what was posted and read then. */
  ghost predicate BegunAt(run: seq<Db>, steps: seq<Step>, m: nat, access: Access, i: int, t: Save)
    requires m < |run| && m < |steps|
  {
    && steps[m] == Begin(i, t.posts, access, t.author)
    && t.snapshot == Snapshot(run[m].rows, t.posts.Keys)
    && Judge(t.posts, ShownAll(t.snapshot), access).Write?
  }

  lemma {:induction false} OpenWasBegun(run: seq<Db>, steps: seq<Step>, n: nat, i: int)
    returns (m: nat, access: Access)
    requires IsRun(run, steps) && n < |run| && i in run[n].active
    ensures m < n && BegunAt(run, steps, m, access, i, run[n].active[i])
    decreases n
  {
    assert n > 0;
    var (was, t) := (run[n - 1], run[n].active[i]);
    assert Next(was, steps[n - 1], run[n - 1 + 1]);
    if i in was.active && SameRequest(was.active[i], t) {
      m, access := OpenWasBegun(run, steps, n - 1, i);
    } else {
      m, access := n - 1, NewlyBegun(was, steps[n - 1], run[n], i);
    }
  }

  predicate SameRequest(t: Save, u: Save) {
    t.posts == u.posts && t.author == u.author && t.snapshot == u.snapshot
  }

  /** No step but its begin brings a save about or changes what it posted and read. */
  ghost function NewlyBegun(db: Db, step: Step, after: Db, i: int): (access: Access)
    requires Next(db, step, after) && i in after.active
    requires !(i in db.active && SameRequest(db.active[i], after.active[i]))
    ensures step == Begin(i, after.active[i].posts, access, after.active[i].author)
    ensures after.active[i].snapshot == Snapshot(db.rows, after.active[i].posts.Keys)
    ensures Judge(after.active[i].posts, ShownAll(after.active[i].snapshot), access).Write?
  {
    step.access
  }

  /**
   * Over every interleaving, a commit changes only rows its actor was permitted to change when the save began, from
   * the value the editor was shown to the value posted, under the actor's name.
   */
  lemma OnlyPermittedRowsChange(run: seq<Db>, steps: seq<Step>, n: nat, i: int, k: Key)
    returns (m: nat, access: Access)
    requires IsRun(run, steps) && n < |steps| && steps[n] == Commit(i)
    requires RowsOf(run[n + 1].rows, k) != RowsOf(run[n].rows, k)
    ensures m < n && i in run[n].active && steps[m] == Begin(i, run[n].active[i].posts, access, run[n].active[i].author)
    ensures k in run[n].active[i].posts && Permits(access, k, Shown(RowsOf(run[m].rows, k)))
    ensures Shown(RowsOf(run[n].rows, k)) == run[n].active[i].posts[k].previous
    ensures Shown(RowsOf(run[n + 1].rows, k)) == run[n].active[i].posts[k].value
    ensures forall f | f in RowsOf(run[n + 1].rows, k) :: f.author == run[n].active[i].author
  {
    NoLostUpdate(run, steps, n, i, k);
    m, access := OpenWasBegun(run, steps, n, i);
    var t := run[n].active[i];
    var shown := ShownAll(t.snapshot);
    hide Judge, Shown;
    assert shown.Keys == t.posts.Keys;
    PermittedRow(t.posts, shown, access, k);
  }

  /**
   * A save is refused in the middle only when someone committed a change to the row it is replacing since it read it.
   */
  lemma RefusedOnlyWhenChanged(run: seq<Db>, steps: seq<Step>, n: nat, i: int)
    requires IsRun(run, steps) && n < |steps| && (steps[n] == Delete(i) || steps[n] == Insert(i))
    requires i in run[n].active && i !in run[n + 1].active
    ensures run[n].active[i].done < |run[n].active[i].plan|
    ensures var k := Wanted(run[n], i);
      k in run[n].active[i].snapshot && RowsOf(run[n].rows, k) != run[n].active[i].snapshot[k]
  {
    RunStep(run, steps, n);
    var t := run[n].active[i];
    assert SaveOk(run[n].rows, run[n].nextId, t);
    hide Shown, Judge;
    assert PlannedFresh(t, t.plan[t.done]);
  }

  // ---------------------------------------------------------------- the runs there are

  /** Any rows with at most one whole-month row a key may be there when nobody is saving. */
  lemma AnyRowsStart(db: Db)
    requires db.active == map[] && (forall f | f in db.rows :: f.id < db.nextId)
    requires forall f, g | f in db.rows && g in db.rows && f.full && g.full && f.key == g.key :: f == g
    ensures IsRun([db], [])
  {
  }

  /** A run goes on with any step its last state has. */
  lemma RunGoesOn(run: seq<Db>, steps: seq<Step>, step: Step, after: Db)
    requires IsRun(run, steps) && Next(run[|steps|], step, after)
    ensures IsRun(run + [after], steps + [step])
  {
    hide Next;
    var (longer, more) := (run + [after], steps + [step]);
    forall n | 0 <= n < |more| ensures Next(longer[n], more[n], longer[n + 1]) {
      assert n < |steps| ==> longer[n] == run[n] && longer[n + 1] == run[n + 1] && more[n] == steps[n];
    }
  }

  lemma {:induction false} SomePlan(changes: map<Key, Option<int>>) returns (plan: seq<Change>)
    ensures PlanOf(changes, plan)
    decreases |changes|
  {
    if changes.Keys == {} {
      plan := [];
    } else {
      var k := Greatest(changes.Keys);
      var rest := map j | j in changes && j != k :: changes[j];
      assert rest.Keys == changes.Keys - {k};
      var front := SomePlan(rest);
      plan := front + [Change(k, changes[k])];
      PlanMore(changes, rest, front, k);
    }
  }

  lemma PlanMore(changes: map<Key, Option<int>>, rest: map<Key, Option<int>>, front: seq<Change>, k: Key)
    requires k in changes && rest == (map j | j in changes && j != k :: changes[j]) && PlanOf(rest, front)
    requires forall j | j in changes :: KeyLe(j, k)
    ensures PlanOf(changes, front + [Change(k, changes[k])])
  {
    var plan := front + [Change(k, changes[k])];
    forall j | j in changes ensures exists p :: 0 <= p < |plan| && plan[p].key == j {
      if j == k {
        assert plan[|front|].key == j;
      } else {
        assert j in rest;
        var p :| 0 <= p < |front| && front[p].key == j;
        assert plan[p].key == j;
      }
    }
  }

  lemma {:induction false} Greatest(keys: set<Key>) returns (k: Key)
    requires keys != {}
    ensures k in keys && forall j | j in keys :: KeyLe(j, k)
    decreases |keys|
  {
    var a := Any(keys);
    k := a;
    if keys - {a} != {} {
      var c := Greatest(keys - {a});
      k := if KeyLt(a, c) then c else a;
    }
    assert forall d | d in keys :: d == a || d in keys - {a};
  }

  /** Any batch can be posted at any time; it opens a save exactly when it is judged fit to write. */
  lemma AnyBatchBegins(db: Db, i: int, posts: Posts, access: Access, author: Option<int>) returns (after: Db)
    requires i !in db.active
    ensures Next(db, Begin(i, posts, access, author), after)
    ensures i in after.active <==> Judge(posts, ShownAll(Snapshot(db.rows, posts.Keys)), access).Write?
    ensures after == db.(active := after.active)
  {
    hide Judge;
    var v := Judge(posts, ShownAll(Snapshot(db.rows, posts.Keys)), access);
    after := db;
    if v.Write? {
      var plan := SomePlan(v.changes);
      after := db.(active := db.active[i := FirstState(db.rows, posts, author, plan)]);
      assert Begun(db, i, posts, author, v.changes, plan, after);
    }
  }

  /** An open save may end without a trace at any time. */
  lemma AnySaveMayEnd(db: Db, i: int)
    requires i in db.active
    ensures Next(db, Abandon(i), db.(active := db.active - {i}))
  {
  }

  /** A DELETE waits exactly for an open save that has deleted a row it is to delete. */
  lemma DeleteWaitsExactly(db: Db, i: int, j: int)
    requires i in db.active && j in db.active && i != j
    requires db.active[i].done < |db.active[i].plan| && !db.active[i].half
    ensures WaitsFor(db, i, j) <==> exists f ::
      f in db.active[j].deleted && Wanted(db, i) in db.active[i].snapshot && f in db.active[i].snapshot[Wanted(db, i)]
  {
  }

  /** An INSERT waits exactly for an open save that has inserted, or deleted, the whole-month row of its key. */
  lemma InsertWaitsExactly(db: Db, i: int, j: int)
    requires i in db.active && j in db.active && i != j
    requires db.active[i].done < |db.active[i].plan| && db.active[i].half
    ensures WaitsFor(db, i, j)
      <==> db.active[i].plan[db.active[i].done].value.Some? && HasUnseen(db.active[j], Wanted(db, i))
  {
  }

  /** The save has put a row of the key in, or taken a whole-month one out, that nobody else sees yet. */
  ghost predicate HasUnseen(t: Save, k: Key) {
    || (exists f :: f in t.inserted && f.key == k)
    || (exists f :: f in t.deleted && f.key == k && f.full)
  }
}
