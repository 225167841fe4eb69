/** Concurrent saves of hand-entered facts: interleaved transactions over rows with row locks and a unique index. */
module FactSaves {
  import opened Wrappers
  import opened FactRows

  datatype Change = Change(key: Key, value: Option<int>)

  /** An open transaction past its read. `deleted` rows are locked and `inserted` rows are unseen until it ends. */
  datatype Save = Save(
    posts: map<Key, Post>, author: Option<int>, snapshot: map<Key, set<Fact>>, plan: seq<Change>,
    done: nat, half: bool, deleted: set<Fact>, inserted: set<Fact>)

  /** `rows` are the committed rows; ids come from a sequence and never repeat. */
  datatype Db = Db(rows: set<Fact>, nextId: int, active: map<int, Save>)

  datatype Step =
    | Begin(i: int, posts: map<Key, Post>, access: Access, author: Option<int>)
    | Delete(i: int)
    | Insert(i: int)
    | Commit(i: int)
    | Abandon(i: int)

  // ---------------------------------------------------------------- the steps

  function Snapshot(rows: set<Fact>, keys: set<Key>): map<Key, set<Fact>> {
    map k | k in keys :: RowsOf(rows, k)
  }

  ghost function ShownAll(snapshot: map<Key, set<Fact>>): map<Key, Option<int>> {
    map k | k in snapshot :: Shown(snapshot[k])
  }

  /** The changed rows, each once, in ascending key order. */
  ghost predicate PlanOf(changes: map<Key, Option<int>>, plan: seq<Change>) {
    && (forall p, q | 0 <= p < q < |plan| :: KeyLt(plan[p].key, plan[q].key))
    && (forall p | 0 <= p < |plan| :: plan[p].key in changes && plan[p].value == changes[plan[p].key])
    && (forall k | k in changes :: exists p :: 0 <= p < |plan| && plan[p].key == k)
  }

  /** The rows replaced by the next change. */
  function Replaced(t: Save): set<Fact>
    requires t.done < |t.plan|
  {
    if t.plan[t.done].key in t.snapshot then t.snapshot[t.plan[t.done].key] else {}
  }

  /** A DELETE waits for whoever has deleted one of its rows. */
  predicate DeleteWaitsFor(t: Save, u: Save)
    requires t.done < |t.plan|
  {
    exists f :: f in u.deleted && f in Replaced(t)
  }

  /** An INSERT waits for whoever has inserted, or is deleting, the row of its unique key. */
  predicate InsertWaitsFor(t: Save, u: Save)
    requires t.done < |t.plan|
  {
    var k := t.plan[t.done].key;
    (exists f :: f in u.inserted && f.key == k) || (exists f :: f in u.deleted && f.full && f.key == k)
  }

  predicate WaitsFor(db: Db, i: int, j: int) {
    && i in db.active && j in db.active && i != j
    && var t := db.active[i];
    && t.done < |t.plan|
    && if t.half then t.plan[t.done].value.Some? && InsertWaitsFor(t, db.active[j]) else DeleteWaitsFor(t, db.active[j])
  }

  predicate Blocked(db: Db, i: int) {
    exists j :: j in db.active && WaitsFor(db, i, j)
  }

  /** The unique index finds a committed row of the key that this save is not deleting. */
  predicate UniqueViolation(rows: set<Fact>, t: Save, k: Key) {
    exists f :: f in rows && f !in t.deleted && f.full && f.key == k
  }

  function NewFact(t: Save, id: int): Fact
    requires t.done < |t.plan| && t.plan[t.done].value.Some?
  {
    Fact(id, t.plan[t.done].key, true, t.plan[t.done].value.value as real, t.author)
  }

  ghost predicate BeginStep(db: Db, i: int, posts: map<Key, Post>, access: Access, author: Option<int>, after: Db) {
    var snapshot := Snapshot(db.rows, posts.Keys);
    var verdict := Judge(posts, ShownAll(snapshot), access);
    && i !in db.active
    && if !verdict.Write? then after == db
       else exists plan :: Begun(db, i, posts, author, verdict.changes, plan, after)
  }

  ghost predicate Begun(db: Db, i: int, posts: map<Key, Post>, author: Option<int>, changes: map<Key, Option<int>>,
                        plan: seq<Change>, after: Db) {
    && PlanOf(changes, plan)
    && after == db.(active := db.active[i := FirstState(db.rows, posts, author, plan)])
  }

  function FirstState(rows: set<Fact>, posts: map<Key, Post>, author: Option<int>, plan: seq<Change>): Save {
    Save(posts, author, Snapshot(rows, posts.Keys), plan, 0, false, {}, {})
  }

  ghost predicate DeleteStep(db: Db, i: int, after: Db) {
    && i in db.active && !Blocked(db, i)
    && var t := db.active[i];
    && t.done < |t.plan| && !t.half
    && after == if Replaced(t) <= db.rows
                then db.(active := db.active[i := t.(half := true, deleted := t.deleted + Replaced(t))])
                else db.(active := db.active - {i})
  }

  ghost predicate InsertStep(db: Db, i: int, after: Db) {
    && i in db.active && !Blocked(db, i)
    && var t := db.active[i];
    && t.done < |t.plan| && t.half
    && if t.plan[t.done].value.None? then after == db.(active := db.active[i := t.(half := false, done := t.done + 1)])
       else if UniqueViolation(db.rows, t, t.plan[t.done].key) then after == db.(active := db.active - {i})
       else after == Db(db.rows, db.nextId + 1,
              db.active[i := t.(half := false, done := t.done + 1, inserted := t.inserted + {NewFact(t, db.nextId)})])
  }

  ghost predicate CommitStep(db: Db, i: int, after: Db) {
    && i in db.active
    && var t := db.active[i];
    && t.done == |t.plan|
    && after == Db(db.rows - t.deleted + t.inserted, db.nextId, db.active - {i})
  }

  ghost predicate Next(db: Db, step: Step, after: Db) {
    match step
    case Begin(i, posts, access, author) => BeginStep(db, i, posts, access, author, after)
    case Delete(i) => DeleteStep(db, i, after)
    case Insert(i) => InsertStep(db, i, after)
    case Commit(i) => CommitStep(db, i, after)
    case Abandon(i) => i in db.active && after == db.(active := db.active - {i})
  }

  /** The unique index holds, no id is ahead of its sequence, and no save is running. */
  ghost predicate Initial(db: Db) {
    && db.active == map[]
    && (forall f | f in db.rows :: f.id < db.nextId)
    && UniqueKeys(db.rows)
  }

  ghost predicate UniqueKeys(rows: set<Fact>) {
    forall f, g | f in rows && g in rows && f.full && g.full && f.key == g.key :: f == g
  }

  ghost predicate IsRun(run: seq<Db>, steps: seq<Step>) {
    && |run| == |steps| + 1 && Initial(run[0])
    && forall n | 0 <= n < |steps| :: Next(run[n], steps[n], run[n + 1])
  }

  // ---------------------------------------------------------------- the invariant

  function TouchedCount(t: Save): nat {
    t.done + if t.half then 1 else 0
  }

  ghost predicate IsTouched(t: Save, k: Key) {
    exists p :: 0 <= p < TouchedCount(t) && p < |t.plan| && t.plan[p].key == k
  }

  /** What a save knows about itself. */
  ghost predicate WellFormed(t: Save) {
    && t.done <= |t.plan| && (t.half ==> t.done < |t.plan|)
    && (forall p, q | 0 <= p < q < |t.plan| :: KeyLt(t.plan[p].key, t.plan[q].key))
    && (forall p | 0 <= p < |t.plan| :: PlannedFresh(t, t.plan[p]))
    && (forall k, f | k in t.snapshot && f in t.snapshot[k] :: f.key == k)
  }

  ghost predicate IsPlanned(plan: seq<Change>, k: Key) {
    exists p :: 0 <= p < |plan| && plan[p].key == k
  }

  /** Every posted key was read, and the plan holds exactly the edits among them. */
  ghost predicate PlansEdits(posts: map<Key, Post>, snapshot: map<Key, set<Fact>>, plan: seq<Change>) {
    && posts.Keys == snapshot.Keys
    && (forall k {:trigger IsPlanned(plan, k)} ::
         IsPlanned(plan, k) <==> k in posts && IsEdit(posts[k], Shown(snapshot[k])))
  }

  /** A planned change is an edit of a row whose snapshot still showed what the editor was shown. */
  ghost predicate PlannedFresh(t: Save, c: Change) {
    && c.key in t.posts && c.key in t.snapshot
    && c.value == t.posts[c.key].value != t.posts[c.key].previous
    && Shown(t.snapshot[c.key]) == t.posts[c.key].previous
  }

  ghost predicate DeletedExactly(t: Save) {
    forall f :: f in t.deleted <==> IsTouched(t, f.key) && f.key in t.snapshot && f in t.snapshot[f.key]
  }

  ghost predicate InsertedExactly(t: Save) {
    && (forall f | f in t.inserted :: IsInserted(t, f))
    && (forall p {:trigger HasInserted(t, t.plan[p].key)} | 0 <= p < t.done && p < |t.plan| && t.plan[p].value.Some? ::
         HasInserted(t, t.plan[p].key))
    && UniqueKeys(t.inserted)
  }

  ghost predicate HasInserted(t: Save, k: Key) {
    exists f :: f in t.inserted && f.key == k
  }

  ghost predicate IsInserted(t: Save, f: Fact) {
    exists p :: 0 <= p < t.done && p < |t.plan| && t.plan[p].value.Some?
      && f == Fact(f.id, t.plan[p].key, true, t.plan[p].value.value as real, t.author)
  }

  /** What a save may rely on about the committed rows. */
  ghost predicate Anchored(rows: set<Fact>, nextId: int, t: Save) {
    && t.deleted <= rows
    && (forall f | f in t.inserted :: f.id < nextId && f !in rows)
    && (forall k, f | k in t.snapshot && f in t.snapshot[k] :: f.id < nextId)
    // Partial rows are never created, so a save that read the key has read them.
    && (forall f | f in rows && !f.full && f.key in t.snapshot :: f in t.snapshot[f.key])
    && (forall k | k in t.snapshot && t.snapshot[k] != {} && t.snapshot[k] <= rows :: RowsOf(rows, k) == t.snapshot[k])
    && (forall f, g | f in t.inserted && g in rows && g.full && g.key == f.key :: g in t.deleted)
  }

  /** Two saves hold different rows and different unique keys, and neither has seen the other's new rows. */
  ghost predicate Apart(t: Save, u: Save) {
    && t.deleted !! u.deleted
    && (forall f, g | f in t.inserted && g in u.inserted :: f.key != g.key && f.id != g.id)
    && (forall k, f | k in t.snapshot && f in t.snapshot[k] :: f !in u.inserted)
    && (forall k, f | k in u.snapshot && f in u.snapshot[k] :: f !in t.inserted)
  }

  ghost predicate SaveOk(rows: set<Fact>, nextId: int, t: Save) {
    WellFormed(t) && DeletedExactly(t) && InsertedExactly(t) && Anchored(rows, nextId, t)
  }

  ghost predicate Inv(db: Db) {
    && (forall f | f in db.rows :: f.id < db.nextId)
    && UniqueKeys(db.rows)
    && (forall i | i in db.active :: SaveOk(db.rows, db.nextId, db.active[i]))
    && (forall i | i in db.active :: PlansEdits(db.active[i].posts, db.active[i].snapshot, db.active[i].plan))
    && (forall i, j | i in db.active && j in db.active && i != j :: Apart(db.active[i], db.active[j]))
  }

  lemma InitialInv(db: Db)
    requires Initial(db)
    ensures Inv(db)
  {
  }

  // ---------------------------------------------------------------- every step keeps it

  lemma ApartSym(t: Save, u: Save)
    requires Apart(t, u)
    ensures Apart(u, t)
  {
  }

  lemma SaveOkLater(rows: set<Fact>, nextId: int, later: int, t: Save)
    requires SaveOk(rows, nextId, t) && nextId <= later
    ensures SaveOk(rows, later, t)
  {
    hide WellFormed, DeletedExactly, InsertedExactly;
  }

  /** One save may move to any sound state that is apart from the others. */
  lemma ReplaceSave(db: Db, i: int, t: Save, nextId: int)
    requires Inv(db) && db.nextId <= nextId && SaveOk(db.rows, nextId, t) && PlansEdits(t.posts, t.snapshot, t.plan)
    requires forall j | j in db.active && j != i :: Apart(t, db.active[j])
    ensures Inv(Db(db.rows, nextId, db.active[i := t]))
  {
    hide SaveOk, Apart, UniqueKeys, PlansEdits;
    var after := Db(db.rows, nextId, db.active[i := t]);
    forall j | j in after.active ensures SaveOk(after.rows, after.nextId, after.active[j]) {
      if j != i {
        SaveOkLater(db.rows, db.nextId, nextId, db.active[j]);
      }
    }
    forall j, k | j in after.active && k in after.active && j != k ensures Apart(after.active[j], after.active[k]) {
      if k == i {
        ApartSym(t, db.active[j]);
      }
    }
  }

  lemma FirstStateOk(db: Db, posts: map<Key, Post>, access: Access, author: Option<int>, plan: seq<Change>)
    requires Inv(db)
    requires Judge(posts, ShownAll(Snapshot(db.rows, posts.Keys)), access).Write?
    requires PlanOf(Judge(posts, ShownAll(Snapshot(db.rows, posts.Keys)), access).changes, plan)
    ensures SaveOk(db.rows, db.nextId, FirstState(db.rows, posts, author, plan))
  {
    var snapshot := Snapshot(db.rows, posts.Keys);
    var t := FirstState(db.rows, posts, author, plan);
    WrittenRowsWereFresh(posts, ShownAll(snapshot), access);
    hide Judge, Shown;
    assert WellFormed(t);
    hide WellFormed;
    FirstAnchored(db, posts, author, plan);
  }

  lemma FirstPlansEdits(posts: map<Key, Post>, snapshot: map<Key, set<Fact>>, access: Access, plan: seq<Change>)
    requires snapshot.Keys == posts.Keys && Judge(posts, ShownAll(snapshot), access).Write?
    requires PlanOf(Judge(posts, ShownAll(snapshot), access).changes, plan)
    ensures PlansEdits(posts, snapshot, plan)
  {
    var changes := Judge(posts, ShownAll(snapshot), access).changes;
    assert changes == Changes(posts, ShownAll(snapshot));
    hide Judge, Shown;
    forall k ensures IsPlanned(plan, k) <==> k in posts && IsEdit(posts[k], Shown(snapshot[k])) {
      assert IsPlanned(plan, k) <==> k in changes;
    }
  }

  lemma FirstAnchored(db: Db, posts: map<Key, Post>, author: Option<int>, plan: seq<Change>)
    requires Inv(db)
    ensures var t := FirstState(db.rows, posts, author, plan);
      Anchored(db.rows, db.nextId, t) && DeletedExactly(t) && InsertedExactly(t)
  {
  }

  lemma BeginKeepsInv(db: Db, i: int, posts: map<Key, Post>, access: Access, author: Option<int>, after: Db)
    requires Inv(db) && BeginStep(db, i, posts, access, author, after)
    ensures Inv(after)
  {
    hide Judge, Shown;
    var verdict := Judge(posts, ShownAll(Snapshot(db.rows, posts.Keys)), access);
    if verdict.Write? {
      var plan :| Begun(db, i, posts, author, verdict.changes, plan, after);
      var t := FirstState(db.rows, posts, author, plan);
      FirstStateOk(db, posts, access, author, plan);
      FirstPlansEdits(posts, Snapshot(db.rows, posts.Keys), access, plan);
      forall j | j in db.active && j != i ensures Apart(t, db.active[j]) {
        NewReaderApart(db, posts, author, plan, db.active[j]);
      }
      ReplaceSave(db, i, t, db.nextId);
    }
  }

  lemma NewReaderApart(db: Db, posts: map<Key, Post>, author: Option<int>, plan: seq<Change>, u: Save)
    requires SaveOk(db.rows, db.nextId, u)
    ensures Apart(FirstState(db.rows, posts, author, plan), u)
  {
    hide WellFormed, DeletedExactly, InsertedExactly;
  }

  lemma RemoveSave(db: Db, i: int)
    requires Inv(db)
    ensures Inv(db.(active := db.active - {i}))
  {
    hide SaveOk, Apart, UniqueKeys, PlansEdits;
  }

  function AfterDelete(t: Save): Save
    requires t.done < |t.plan|
  {
    t.(half := true, deleted := t.deleted + Replaced(t))
  }

  /** A step that inserts nothing keeps the inserted rows in line with the plan. */
  lemma SameInserted(t: Save, u: Save)
    requires InsertedExactly(t) && u.plan == t.plan && u.author == t.author && u.inserted == t.inserted
    requires t.done <= u.done
    requires forall p | t.done <= p < u.done && p < |t.plan| :: t.plan[p].value.None?
    ensures InsertedExactly(u)
  {
    forall f | f in u.inserted ensures IsInserted(u, f) {
      assert IsInserted(t, f);
    }
    forall p | 0 <= p < u.done && p < |u.plan| && u.plan[p].value.Some? ensures HasInserted(u, u.plan[p].key) {
      assert HasInserted(t, t.plan[p].key);
    }
  }

  lemma DeletedRows(t: Save)
    requires WellFormed(t) && DeletedExactly(t) && t.done < |t.plan| && !t.half
    ensures DeletedExactly(AfterDelete(t))
  {
    hide PlannedFresh, KeyLt;
    var u := AfterDelete(t);
    forall f ensures f in u.deleted <==> IsTouched(u, f.key) && f.key in u.snapshot && f in u.snapshot[f.key] {
      if f in Replaced(t) {
        assert u.plan[t.done].key == f.key;
      }
      if IsTouched(t, f.key) {
        var p :| 0 <= p < TouchedCount(t) && p < |t.plan| && t.plan[p].key == f.key;
        assert u.plan[p].key == f.key;
      }
      if IsTouched(u, f.key) {
        var p :| 0 <= p < TouchedCount(u) && p < |u.plan| && u.plan[p].key == f.key;
        assert p < t.done ==> IsTouched(t, f.key);
      }
    }
  }

  lemma DeletedOk(rows: set<Fact>, nextId: int, t: Save)
    requires SaveOk(rows, nextId, t) && t.done < |t.plan| && !t.half && Replaced(t) <= rows
    ensures SaveOk(rows, nextId, AfterDelete(t))
  {
    var u := AfterDelete(t);
    DeletedRows(t);
    hide Shown, DeletedExactly;
    assert WellFormed(u);
    hide WellFormed;
    SameInserted(t, u);
  }

  lemma DeleteApart(t: Save, u: Save)
    requires Apart(t, u) && t.done < |t.plan| && !DeleteWaitsFor(t, u)
    ensures Apart(AfterDelete(t), u)
  {
  }

  lemma DeleteKeepsInv(db: Db, i: int, after: Db)
    requires Inv(db) && DeleteStep(db, i, after)
    ensures Inv(after)
  {
    hide SaveOk, UniqueKeys, Apart, PlansEdits;
    var t := db.active[i];
    if Replaced(t) <= db.rows {
      DeletedOk(db.rows, db.nextId, t);
      forall j | j in db.active && j != i ensures Apart(AfterDelete(t), db.active[j]) {
        assert !WaitsFor(db, i, j);
        DeleteApart(t, db.active[j]);
      }
      ReplaceSave(db, i, AfterDelete(t), db.nextId);
    } else {
      RemoveSave(db, i);
    }
  }

  function AfterSkip(t: Save): Save {
    t.(half := false, done := t.done + 1)
  }

  function AfterInsert(t: Save, id: int): Save
    requires t.done < |t.plan| && t.plan[t.done].value.Some?
  {
    t.(half := false, done := t.done + 1, inserted := t.inserted + {NewFact(t, id)})
  }

  lemma SkippedOk(rows: set<Fact>, nextId: int, t: Save)
    requires SaveOk(rows, nextId, t) && t.half && t.plan[t.done].value.None?
    ensures SaveOk(rows, nextId, AfterSkip(t))
  {
    hide Shown;
    var u := AfterSkip(t);
    assert forall k :: IsTouched(u, k) <==> IsTouched(t, k);
    SameInserted(t, u);
  }

  lemma InsertedWellFormed(t: Save, nextId: int)
    requires WellFormed(t) && DeletedExactly(t) && t.half && t.plan[t.done].value.Some?
    ensures WellFormed(AfterInsert(t, nextId)) && DeletedExactly(AfterInsert(t, nextId))
  {
    hide Shown;
    assert forall k :: IsTouched(AfterInsert(t, nextId), k) <==> IsTouched(t, k);
    assert forall c :: PlannedFresh(AfterInsert(t, nextId), c) <==> PlannedFresh(t, c);
  }

  lemma InsertedRows(t: Save, nextId: int)
    requires WellFormed(t) && InsertedExactly(t) && t.half && t.plan[t.done].value.Some?
    ensures InsertedExactly(AfterInsert(t, nextId))
  {
    hide Shown, PlannedFresh;
    var u, n := AfterInsert(t, nextId), NewFact(t, nextId);
    forall f | f in t.inserted ensures IsInserted(u, f) && f.key != n.key {
      assert IsInserted(t, f);
      var p :| 0 <= p < t.done && p < |t.plan| && t.plan[p].value.Some?
        && f == Fact(f.id, t.plan[p].key, true, t.plan[p].value.value as real, t.author);
      assert KeyLt(t.plan[p].key, t.plan[t.done].key);
      assert u.plan[p] == t.plan[p];
    }
    assert u.plan[t.done] == t.plan[t.done];
    assert IsInserted(u, n);
    InsertedKeys(t, nextId);
  }

  lemma InsertedAnchored(rows: set<Fact>, nextId: int, t: Save)
    requires Anchored(rows, nextId, t) && t.done < |t.plan| && t.plan[t.done].value.Some?
    requires forall f | f in rows :: f.id < nextId
    requires !UniqueViolation(rows, t, t.plan[t.done].key)
    ensures Anchored(rows, nextId + 1, AfterInsert(t, nextId))
  {
  }

  lemma InsertedOk(rows: set<Fact>, nextId: int, t: Save)
    requires SaveOk(rows, nextId, t) && t.half && t.plan[t.done].value.Some?
    requires forall f | f in rows :: f.id < nextId
    requires !UniqueViolation(rows, t, t.plan[t.done].key)
    ensures SaveOk(rows, nextId + 1, AfterInsert(t, nextId))
  {
    hide Anchored, InsertedExactly, DeletedExactly;
    InsertedWellFormed(t, nextId);
    InsertedRows(t, nextId);
    InsertedAnchored(rows, nextId, t);
  }

  lemma InsertedKeys(t: Save, nextId: int)
    requires InsertedExactly(t) && t.done < |t.plan| && t.plan[t.done].value.Some?
    ensures var u := AfterInsert(t, nextId);
      forall p | 0 <= p < u.done && p < |u.plan| && u.plan[p].value.Some? :: HasInserted(u, u.plan[p].key)
  {
    var u := AfterInsert(t, nextId);
    forall p | 0 <= p < u.done && p < |u.plan| && u.plan[p].value.Some?
      ensures HasInserted(u, u.plan[p].key)
    {
      if p < t.done {
        assert HasInserted(t, t.plan[p].key);
        var f :| f in t.inserted && f.key == t.plan[p].key;
        assert f in u.inserted;
      } else {
        assert NewFact(t, nextId) in u.inserted;
      }
    }
  }

  lemma InsertApart(db: Db, i: int, j: int)
    requires Inv(db) && i in db.active && j in db.active && i != j && !Blocked(db, i)
    requires db.active[i].half && db.active[i].done < |db.active[i].plan|
    requires db.active[i].plan[db.active[i].done].value.Some?
    ensures Apart(AfterInsert(db.active[i], db.nextId), db.active[j])
  {
    hide WellFormed, DeletedExactly, InsertedExactly, UniqueKeys;
    assert !WaitsFor(db, i, j);
    assert SaveOk(db.rows, db.nextId, db.active[j]);
    assert Apart(db.active[i], db.active[j]);
  }

  lemma InsertKeepsInv(db: Db, i: int, after: Db)
    requires Inv(db) && InsertStep(db, i, after)
    ensures Inv(after)
  {
    hide SaveOk, Apart, UniqueKeys, WaitsFor, PlansEdits;
    var t := db.active[i];
    if t.plan[t.done].value.None? {
      SkippedOk(db.rows, db.nextId, t);
      forall j | j in db.active && j != i ensures Apart(AfterSkip(t), db.active[j]) {
        SkipApart(t, db.active[j]);
      }
      ReplaceSave(db, i, AfterSkip(t), db.nextId);
    } else if UniqueViolation(db.rows, t, t.plan[t.done].key) {
      RemoveSave(db, i);
    } else {
      InsertedOk(db.rows, db.nextId, t);
      forall j | j in db.active && j != i ensures Apart(AfterInsert(t, db.nextId), db.active[j]) {
        InsertApart(db, i, j);
      }
      ReplaceSave(db, i, AfterInsert(t, db.nextId), db.nextId + 1);
    }
  }

  lemma SkipApart(t: Save, u: Save)
    requires Apart(t, u)
    ensures Apart(AfterSkip(t), u)
  {
  }

  // ---------------------------------------------------------------- committing

  /** Whoever reached a key with something to hold there has taken every row it saw of the key. */
  lemma TouchedKeyTaken(rows: set<Fact>, nextId: int, t: Save, h: Fact)
    requires SaveOk(rows, nextId, t) && h in t.inserted
    ensures IsTouched(t, h.key) && h.full && h.key in t.snapshot
    ensures forall f | f in t.snapshot[h.key] :: f in t.deleted
  {
    hide Shown, Anchored;
    assert IsInserted(t, h);
    var p :| 0 <= p < t.done && p < |t.plan| && t.plan[p].value.Some?
      && h == Fact(h.id, t.plan[p].key, true, t.plan[p].value.value as real, t.author);
    assert PlannedFresh(t, t.plan[p]);
  }

  /** Every committed row of a key it inserted is one it deleted. */
  lemma InsertedOverOwn(rows: set<Fact>, nextId: int, t: Save, h: Fact, f: Fact)
    requires SaveOk(rows, nextId, t) && h in t.inserted && f in rows && f.key == h.key
    ensures f in t.deleted
  {
    hide WellFormed, DeletedExactly, InsertedExactly;
    TouchedKeyTaken(rows, nextId, t, h);
  }

  lemma CommitAnchors(rows: set<Fact>, nextId: int, t: Save, u: Save)
    requires SaveOk(rows, nextId, t) && SaveOk(rows, nextId, u) && Apart(t, u)
    ensures Anchored(rows - t.deleted + t.inserted, nextId, u)
  {
    hide WellFormed, DeletedExactly;
    var after := rows - t.deleted + t.inserted;
    forall h | h in t.inserted ensures h.full && forall f | f in rows && f.key == h.key :: f in t.deleted {
      TouchedKeyTaken(rows, nextId, t, h);
      forall f | f in rows && f.key == h.key ensures f in t.deleted {
        InsertedOverOwn(rows, nextId, t, h, f);
      }
    }
    forall k | k in u.snapshot && u.snapshot[k] != {} && u.snapshot[k] <= after
      ensures RowsOf(after, k) == u.snapshot[k]
    {
      assert u.snapshot[k] <= rows;
      var f := Any(u.snapshot[k]);
      assert f in RowsOf(rows, k);
    }
  }

  lemma CommitKeepsInv(db: Db, i: int, after: Db)
    requires Inv(db) && CommitStep(db, i, after)
    ensures Inv(after)
  {
    hide WellFormed, DeletedExactly, PlansEdits;
    var t := db.active[i];
    assert SaveOk(db.rows, db.nextId, t);
    forall j | j in after.active ensures SaveOk(after.rows, after.nextId, after.active[j]) {
      assert Apart(t, db.active[j]);
      CommitAnchors(db.rows, db.nextId, t, db.active[j]);
    }
    CommitUnique(db.rows, db.nextId, t);
  }

  lemma CommitUnique(rows: set<Fact>, nextId: int, t: Save)
    requires SaveOk(rows, nextId, t) && UniqueKeys(rows)
    ensures UniqueKeys(rows - t.deleted + t.inserted)
  {
    hide WellFormed, DeletedExactly;
  }

  lemma StepKeepsInv(db: Db, step: Step, after: Db)
    requires Inv(db) && Next(db, step, after)
    ensures Inv(after)
  {
    hide Inv, BeginStep, DeleteStep, InsertStep, CommitStep;
    match step
    case Begin(i, posts, access, author) => BeginKeepsInv(db, i, posts, access, author, after);
    case Delete(i) => DeleteKeepsInv(db, i, after);
    case Insert(i) => InsertKeepsInv(db, i, after);
    case Commit(i) => CommitKeepsInv(db, i, after);
    case Abandon(i) => RemoveSave(db, i);
  }

  lemma {:induction false} RunKeepsInv(run: seq<Db>, steps: seq<Step>, n: nat)
    requires IsRun(run, steps) && n < |run|
    ensures Inv(run[n])
    decreases n
  {
    hide Inv, Next;
    if n == 0 {
      InitialInv(run[0]);
    } else {
      RunKeepsInv(run, steps, n - 1);
      assert Next(run[n - 1], steps[n - 1], run[n - 1 + 1]);
      StepKeepsInv(run[n - 1], steps[n - 1], run[n]);
    }
  }

  // ---------------------------------------------------------------- no lost update

  lemma PlannedRowsDeleted(t: Save, p: nat)
    requires WellFormed(t) && DeletedExactly(t) && t.done == |t.plan| && p < |t.plan|
    ensures PlannedFresh(t, t.plan[p])
    ensures forall f :: f in t.snapshot[t.plan[p].key] <==> f in t.deleted && f.key == t.plan[p].key
  {
    hide Shown, KeyLt;
    assert PlannedFresh(t, t.plan[p]);
    assert IsTouched(t, t.plan[p].key);
  }

  /** A save about to commit holds exactly the rows of each planned key that it read. */
  lemma HeldRowsAreRead(rows: set<Fact>, nextId: int, t: Save, p: nat)
    requires SaveOk(rows, nextId, t) && t.done == |t.plan| && p < |t.plan|
    ensures PlannedFresh(t, t.plan[p]) && RowsOf(rows, t.plan[p].key) == t.snapshot[t.plan[p].key]
    ensures RowsOf(rows, t.plan[p].key) <= t.deleted
  {
    hide WellFormed, DeletedExactly, Shown;
    PlannedRowsDeleted(t, p);
    var c := t.plan[p];
    if t.snapshot[c.key] == {} {
      ShownEmpty();
      assert HasInserted(t, t.plan[p].key);
      var h :| h in t.inserted && h.key == c.key;
      forall f | f in rows && f.key == c.key ensures f in t.snapshot[c.key] {
        InsertedOverOwn(rows, nextId, t, h, f);
      }
    }
  }

  ghost predicate IsOnlyRow(f: Fact, rows: set<Fact>, value: int, author: Option<int>) {
    rows == {f} && f.value == value as real && f.author == author
  }

  lemma PlannedOnce(plan: seq<Change>, p: nat, q: nat)
    requires forall i, j | 0 <= i < j < |plan| :: KeyLt(plan[i].key, plan[j].key)
    requires p < |plan| && q < |plan| && plan[p].key == plan[q].key
    ensures p == q
  {
  }

  lemma InsertedAsPlanned(t: Save, p: nat, h: Fact)
    requires WellFormed(t) && IsInserted(t, h) && p < |t.plan| && h.key == t.plan[p].key
    ensures t.plan[p].value.Some? && h.value == t.plan[p].value.value as real && h.author == t.author
  {
    var q :| 0 <= q < t.done && q < |t.plan| && t.plan[q].value.Some?
      && h == Fact(h.id, t.plan[q].key, true, t.plan[q].value.value as real, t.author);
    PlannedOnce(t.plan, p, q);
  }

  lemma InsertedIsFull(t: Save, h: Fact)
    requires IsInserted(t, h)
    ensures h.full
  {
  }

  lemma InsertedForPlanned(t: Save, p: nat) returns (h: Fact)
    requires InsertedExactly(t) && t.done == |t.plan| && p < |t.plan| && t.plan[p].value.Some?
    ensures h in t.inserted && h.key == t.plan[p].key && IsInserted(t, h)
    ensures forall g | g in t.inserted && g.key == h.key :: g == h
  {
    hide IsInserted;
    assert HasInserted(t, t.plan[p].key);
    h :| h in t.inserted && h.key == t.plan[p].key;
    forall g | g in t.inserted ensures g.full {
      InsertedIsFull(t, g);
    }
  }

  lemma InsertedIsPlanned(t: Save, p: nat, h: Fact)
    requires WellFormed(t) && InsertedExactly(t) && h in t.inserted && p < |t.plan| && t.plan[p].value.None?
    ensures h.key != t.plan[p].key
  {
    hide WellFormed;
    assert IsInserted(t, h);
    if h.key == t.plan[p].key {
      InsertedAsPlanned(t, p, h);
    }
  }

  /** The rows of a planned key after the commit: the one new row, or none. */
  lemma CommittedRows(rows: set<Fact>, nextId: int, t: Save, p: nat)
    requires SaveOk(rows, nextId, t) && t.done == |t.plan| && p < |t.plan|
    ensures var after := RowsOf(rows - t.deleted + t.inserted, t.plan[p].key);
      if t.plan[p].value.None? then after == {}
      else exists f :: IsOnlyRow(f, after, t.plan[p].value.value, t.author)
  {
    hide WellFormed, DeletedExactly, InsertedExactly, Anchored;
    HeldRowsAreRead(rows, nextId, t, p);
    var c := t.plan[p];
    var after := RowsOf(rows - t.deleted + t.inserted, c.key);
    assert forall f | f in after :: f in RowsOf(rows, c.key) ==> f in t.inserted;
    if c.value.Some? {
      var h := InsertedForPlanned(t, p);
      InsertedAsPlanned(t, p, h);
      assert IsOnlyRow(h, after, c.value.value, t.author);
    } else {
      forall h | h in t.inserted ensures h.key != c.key {
        InsertedIsPlanned(t, p, h);
      }
      assert after == {};
    }
  }

  /** Rows of a key the batch does not plan to change are not touched by its commit. */
  lemma UnplannedRowsKept(rows: set<Fact>, nextId: int, t: Save, k: Key)
    requires SaveOk(rows, nextId, t) && forall p | 0 <= p < |t.plan| :: t.plan[p].key != k
    ensures RowsOf(rows - t.deleted + t.inserted, k) == RowsOf(rows, k)
  {
    hide PlannedFresh, Anchored;
    forall h | h in t.inserted ensures h.key != k {
      assert IsInserted(t, h);
    }
    forall f | f in t.deleted ensures f.key != k {
      assert IsTouched(t, f.key);
    }
  }

  /** The posted row was an edit of what the save read. */
  ghost predicate IsEdited(t: Save, k: Key) {
    k in t.posts && IsEdit(t.posts[k], Shown(if k in t.snapshot then t.snapshot[k] else {}))
  }

  /**
   * What a commit did to key `k`: wrote the edit over the value its editor was shown, or nothing where there was no
   * edit.
   */
  ghost predicate CommittedKey(t: Save, k: Key, before: set<Fact>, after: set<Fact>) {
    if IsEdited(t, k) then
      && Shown(before) == t.posts[k].previous && Shown(after) == t.posts[k].value
      && (forall f | f in after :: f.author == t.author)
    else after == before
  }

  lemma EditedIsPlanned(t: Save, k: Key)
    requires PlansEdits(t.posts, t.snapshot, t.plan)
    ensures IsEdited(t, k) <==> IsPlanned(t.plan, k)
  {
  }

  /** A planned key goes from the value shown to the value posted. */
  lemma PlannedKeyWritten(rows: set<Fact>, nextId: int, t: Save, p: nat)
    requires SaveOk(rows, nextId, t) && t.done == |t.plan| && p < |t.plan|
    ensures var k := t.plan[p].key;
      var after := RowsOf(rows - t.deleted + t.inserted, k);
      && k in t.posts && Shown(RowsOf(rows, k)) == t.posts[k].previous && Shown(after) == t.posts[k].value
      && forall f | f in after :: f.author == t.author
  {
    hide SaveOk, Shown;
    HeldRowsAreRead(rows, nextId, t, p);
    CommittedRows(rows, nextId, t, p);
    var after := RowsOf(rows - t.deleted + t.inserted, t.plan[p].key);
    if t.plan[p].value.Some? {
      var f :| IsOnlyRow(f, after, t.plan[p].value.value, t.author);
      ShownSingle(f, t.plan[p].value.value);
    } else {
      ShownEmpty();
    }
  }

  lemma CommitChecked(db: Db, i: int, after: Db, k: Key)
    requires Inv(db) && CommitStep(db, i, after)
    ensures CommittedKey(db.active[i], k, RowsOf(db.rows, k), RowsOf(after.rows, k))
  {
    hide SaveOk, Shown, IsEdited, PlansEdits;
    var t := db.active[i];
    EditedIsPlanned(t, k);
    if IsPlanned(t.plan, k) {
      var p :| 0 <= p < |t.plan| && t.plan[p].key == k;
      PlannedKeyWritten(db.rows, db.nextId, t, p);
    } else {
      UnplannedRowsKept(db.rows, db.nextId, t, k);
    }
  }

  lemma ShownEmpty()
    ensures Shown({}) == None
  {
  }

  lemma RunStep(run: seq<Db>, steps: seq<Step>, n: nat)
    requires IsRun(run, steps) && n < |steps|
    ensures |run| == |steps| + 1 && Inv(run[n]) && Next(run[n], steps[n], run[n + 1])
  {
    RunKeepsInv(run, steps, n);
  }

  /**
   * Over every interleaving: a commit leaves every edit of its batch stored over the value its editor was shown, and
   * touches nothing else.
   */
  lemma NoLostUpdate(run: seq<Db>, steps: seq<Step>, n: nat, i: int, k: Key)
    requires IsRun(run, steps) && n < |steps| && steps[n] == Commit(i)
    ensures i in run[n].active
      && CommittedKey(run[n].active[i], k, RowsOf(run[n].rows, k), RowsOf(run[n + 1].rows, k))
  {
    hide IsRun, Inv, CommittedKey;
    RunStep(run, steps, n);
    CommitChecked(run[n], i, run[n + 1], k);
  }

  /** A commit stores its batch whole: every row its editor changed shows the posted value. */
  lemma WholeBatchStored(run: seq<Db>, steps: seq<Step>, n: nat, i: int)
    requires IsRun(run, steps) && n < |steps| && steps[n] == Commit(i)
    ensures i in run[n].active
    ensures var posts := run[n].active[i].posts;
      forall k | k in posts && posts[k].versioned && posts[k].value != posts[k].previous ::
        Shown(RowsOf(run[n + 1].rows, k)) == posts[k].value
  {
    hide IsRun, Shown;
    RunStep(run, steps, n);
    forall k | k in run[n].active[i].posts {
      NoLostUpdate(run, steps, n, i, k);
    }
  }

  /** Only a commit changes stored rows: a refused, waiting or abandoned save changes nothing. */
  lemma OnlyCommitsWrite(run: seq<Db>, steps: seq<Step>, n: nat)
    requires IsRun(run, steps) && n < |steps| && !steps[n].Commit?
    ensures run[n + 1].rows == run[n].rows
  {
    hide Judge;
    RunStep(run, steps, n);
  }

  // ---------------------------------------------------------------- no deadlock

  /** The save has deleted or inserted a row of the key and has not ended. */
  ghost predicate Holds(t: Save, k: Key) {
    (exists f :: f in t.deleted && f.key == k) || (exists f :: f in t.inserted && f.key == k)
  }

  lemma WaitedKeyIsHeld(db: Db, i: int, j: int)
    requires WaitsFor(db, i, j)
    requires forall k, f | k in db.active[i].snapshot && f in db.active[i].snapshot[k] :: f.key == k
    ensures Holds(db.active[j], db.active[i].plan[db.active[i].done].key)
  {
  }

  /** The holder of a key has deleted every committed row of it. */
  lemma HolderTookAll(rows: set<Fact>, nextId: int, t: Save, k: Key, f: Fact)
    requires SaveOk(rows, nextId, t) && Holds(t, k) && f in rows && f.key == k
    ensures f in t.deleted
  {
    hide PlannedFresh, KeyLt;
    if h :| h in t.inserted && h.key == k {
      InsertedOverOwn(rows, nextId, t, h, f);
    } else {
      var g :| g in t.deleted && g.key == k;
      assert t.snapshot[k] <= rows by {
        assert forall e | e in t.snapshot[k] :: e in t.deleted;
      }
      assert f in RowsOf(rows, k);
    }
  }

  /** A key is held by one save at a time. */
  lemma KeyHeldOnce(rows: set<Fact>, nextId: int, t: Save, u: Save, k: Key)
    requires SaveOk(rows, nextId, t) && SaveOk(rows, nextId, u) && Apart(t, u)
    ensures !(Holds(t, k) && Holds(u, k))
  {
    hide WellFormed, InsertedExactly, DeletedExactly;
    if Holds(t, k) && Holds(u, k) {
      if f :| f in t.deleted + u.deleted && f.key == k {
        HolderTookAll(rows, nextId, t, k, f);
        HolderTookAll(rows, nextId, u, k, f);
      }
    }
  }

  predicate KeyLe(a: Key, b: Key) {
    a == b || KeyLt(a, b)
  }

  predicate IsReached(t: Save, k: Key) {
    exists p :: 0 <= p <= t.done && p < |t.plan| && t.plan[p].key == k
  }

  lemma InsertedIsReached(t: Save, f: Fact)
    requires IsInserted(t, f)
    ensures IsReached(t, f.key)
  {
  }

  lemma TouchedIsReached(t: Save, k: Key)
    requires IsTouched(t, k)
    ensures IsReached(t, k)
  {
  }

  /** A held key is one of the changes up to the one in work. */
  lemma HeldIsReached(t: Save, k: Key)
    requires DeletedExactly(t) && InsertedExactly(t) && Holds(t, k)
    ensures IsReached(t, k)
  {
    hide UniqueKeys, IsInserted, IsTouched, IsReached;
    if h :| h in t.inserted && h.key == k {
      InsertedIsReached(t, h);
    } else {
      var f :| f in t.deleted && f.key == k;
      TouchedIsReached(t, k);
    }
  }

  /** A save never holds a key beyond the one it works on. */
  lemma HeldKeysAreSmaller(rows: set<Fact>, nextId: int, t: Save, k: Key)
    requires SaveOk(rows, nextId, t) && Holds(t, k) && t.done < |t.plan|
    ensures KeyLe(k, t.plan[t.done].key)
  {
    hide PlannedFresh, Anchored, DeletedExactly, InsertedExactly, Holds;
    HeldIsReached(t, k);
  }

  /** Whoever is waited for and waits in turn wants a greater key. */
  ghost predicate Climbs(db: Db) {
    forall i, j, m | WaitsFor(db, i, j) && WaitsFor(db, j, m) :: KeyLt(Wanted(db, i), Wanted(db, j))
  }

  lemma WaitsClimb(db: Db)
    requires Inv(db)
    ensures Climbs(db)
  {
    forall i | i in db.active
      ensures forall k, f | k in db.active[i].snapshot && f in db.active[i].snapshot[k] :: f.key == k
    {
      OpenIsKeyed(db, i);
    }
    hide SaveOk, Apart, UniqueKeys, Holds, KeyLt;
    forall i, j, m | WaitsFor(db, i, j) && WaitsFor(db, j, m) ensures KeyLt(Wanted(db, i), Wanted(db, j)) {
      WaitedKeyIsHeld(db, i, j);
      WaitedKeyIsHeld(db, j, m);
      HeldKeysAreSmaller(db.rows, db.nextId, db.active[j], Wanted(db, i));
      KeyHeldOnce(db.rows, db.nextId, db.active[j], db.active[m], Wanted(db, i));
    }
  }

  lemma OpenIsKeyed(db: Db, i: int)
    requires Inv(db) && i in db.active
    ensures db.active[i].done <= |db.active[i].plan|
    ensures forall k, f | k in db.active[i].snapshot && f in db.active[i].snapshot[k] :: f.key == k
  {
    hide Apart, UniqueKeys, DeletedExactly, InsertedExactly, Anchored;
    assert SaveOk(db.rows, db.nextId, db.active[i]);
  }

  /**
   * In every reachable state, whoever is waited for and waits in turn wants a greater key, so no chain of waits
   * closes.
   */
  lemma WaitsAscend(run: seq<Db>, steps: seq<Step>, n: nat, i: int, j: int, m: int)
    requires IsRun(run, steps) && n < |run| && WaitsFor(run[n], i, j) && WaitsFor(run[n], j, m)
    ensures KeyLt(Wanted(run[n], i), Wanted(run[n], j))
  {
    hide IsRun, Inv, KeyLt;
    RunKeepsInv(run, steps, n);
    WaitsClimb(run[n]);
  }

  function Wanted(db: Db, i: int): Key
    requires i in db.active && db.active[i].done < |db.active[i].plan|
  {
    db.active[i].plan[db.active[i].done].key
  }

  /**
   * Following the waits from any save among `rest` for which greater wanted keys are still in `rest` reaches one that
   * is free.
   */
  lemma {:induction false} SomeSaveFree(db: Db, i: int, rest: set<int>) returns (j: int)
    requires Inv(db) && i in db.active && i in rest && rest <= db.active.Keys
    requires forall m | m in db.active && m !in rest :: LowerWant(db, m, i)
    ensures j in db.active && !Blocked(db, j)
    decreases rest
  {
    hide Inv, WaitsFor, KeyLt;
    if !Blocked(db, i) {
      j := i;
    } else {
      var n :| n in db.active && WaitsFor(db, i, n);
      if !Blocked(db, n) {
        j := n;
      } else {
        var w :| w in db.active && WaitsFor(db, n, w);
        WaitsClimb(db);
        WaitsAreOpen(db, i, n);
        WaitsAreOpen(db, n, w);
        forall m | m in db.active && m !in rest - {i} ensures LowerWant(db, m, n) {
          LowerTrans(db, m, i, n);
        }
        LowerNotSelf(db, n);
        j := SomeSaveFree(db, n, rest - {i});
      }
    }
  }

  /** `m` is past its last change or wants a smaller key than `i`. */
  ghost predicate LowerWant(db: Db, m: int, i: int)
    requires m in db.active && i in db.active
  {
    && db.active[i].done < |db.active[i].plan|
    && db.active[m].done < |db.active[m].plan|
    && KeyLt(Wanted(db, m), Wanted(db, i))
  }

  lemma WaitsAreOpen(db: Db, i: int, j: int)
    requires WaitsFor(db, i, j)
    ensures i in db.active && db.active[i].done < |db.active[i].plan|
  {
  }

  lemma LowerTrans(db: Db, m: int, i: int, n: int)
    requires m in db.active && i in db.active && n in db.active
    requires (m == i || LowerWant(db, m, i)) && LowerWant(db, i, n)
    ensures LowerWant(db, m, n)
  {
  }

  lemma LowerNotSelf(db: Db, n: int)
    requires n in db.active
    ensures !LowerWant(db, n, n)
  {
  }

  /** In every reachable state with a save running, some save can take a step of its own. */
  lemma SomeSaveCanStep(run: seq<Db>, steps: seq<Step>, n: nat) returns (i: int, step: Step, after: Db)
    requires IsRun(run, steps) && n < |run| && run[n].active != map[]
    ensures i in run[n].active && Next(run[n], step, after)
    ensures step == Delete(i) || step == Insert(i) || step == Commit(i)
  {
    hide Inv, Judge;
    RunKeepsInv(run, steps, n);
    var db := run[n];
    var first := Any(db.active.Keys);
    i := SomeSaveFree(db, first, db.active.Keys);
    var t := db.active[i];
    OpenIsKeyed(db, i);
    if t.done == |t.plan| {
      step, after := Commit(i), Db(db.rows - t.deleted + t.inserted, db.nextId, db.active - {i});
    } else if !t.half {
      step := Delete(i);
      after := if Replaced(t) <= db.rows
               then db.(active := db.active[i := t.(half := true, deleted := t.deleted + Replaced(t))])
               else db.(active := db.active - {i});
    } else {
      step := Insert(i);
      after := if t.plan[t.done].value.None? then db.(active := db.active[i := t.(half := false, done := t.done + 1)])
               else if UniqueViolation(db.rows, t, t.plan[t.done].key) then db.(active := db.active - {i})
               else Db(db.rows, db.nextId + 1,
                 db.active[i := t.(half := false, done := t.done + 1,
                                   inserted := t.inserted + {NewFact(t, db.nextId)})]);
    }
  }
}
