/** Concurrent saves of one month's Yandex Pay totals: a compare-and-set on (amount, data through). */
module PaymentSaves {
  import opened Wrappers

  /** A row's value as an editor posts and sees it; amounts are kopecks, an absent amount carries no date. */
  datatype Entry = Entry(amount: Option<int>, through: Option<int>)

  datatype Cell = Cell(id: int, amount: int, through: int, author: Option<int>)

  datatype Month = Month(start: int, end: int)

  datatype Post = Post(value: Entry, previous: Entry)

  const NOTHING := Entry(None, None)

  function Min(a: int, b: int): int {
    if a <= b then a else b
  }

  function Max(a: int, b: int): int {
    if a <= b then b else a
  }

  // ---------------------------------------------------------------- dates

  /** The default and the latest "data through" day an editor may offer, or neither before the month starts. */
  function EntryDates(m: Month, today: int): (r: (Option<int>, Option<int>))
    requires m.start <= m.end
    ensures (r.0.Some? <==> m.start <= today) && (r.1.Some? <==> m.start <= today)
    ensures m.start <= today ==> m.start <= r.0.value <= r.1.value <= m.end && r.1.value <= today
    ensures m.start <= today ==> r.1.value == m.end || r.1.value == today
    // The default is the last day already over: before today unless it is the 1st, with nothing over after it.
    ensures m.start <= today ==> r.0.value < today || r.0.value == m.start
    ensures m.start <= today ==> r.0.value == m.end || today <= r.0.value + 1
  {
    if today < m.start then (None, None)
    else if m.end < today then (Some(m.end), Some(Min(m.end, today)))
    else (Some(Max(m.start, today - 1)), Some(Min(m.end, today)))
  }

  /** A posted day is accepted exactly when it lies inside the month and not in the future. */
  predicate AcceptsThrough(m: Month, today: int, through: Option<int>) {
    through.None? || (m.start <= through.value <= m.end && through.value <= today)
  }

  predicate ValidCell(m: Month, today: int, c: Cell) {
    0 <= c.amount && m.start <= c.through <= Min(m.end, today)
  }

  // ---------------------------------------------------------------- judging a batch

  function EntryOf(row: Option<Cell>): Entry {
    if row.None? then NOTHING else Entry(Some(row.value.amount), Some(row.value.through))
  }

  /** An amount typed without a day gets the month's default day. */
  function Filled(m: Month, today: int, e: Entry): Entry
    requires m.start <= m.end
  {
    if e.amount.Some? && e.through.None? then Entry(e.amount, EntryDates(m, today).0) else e
  }

  /** What parsing a posted row leaves: no negative amounts, acceptable days, and no day without an amount. */
  predicate ValidPost(m: Month, today: int, p: Post) {
    && (p.value.amount.Some? ==> 0 <= p.value.amount.value && AcceptsThrough(m, today, p.value.through))
    && (p.value.amount.None? ==> p.value.through.None?)
    && (p.previous.amount.None? ==> p.previous.through.None?)
  }

  datatype Verdict = Untouched | Conflict | NotOpen | Write(pending: map<int, Entry>)

  predicate IsStale(p: Post, row: Option<Cell>) {
    p.value != p.previous && EntryOf(row) != p.previous
  }

  predicate IsPending(m: Month, today: int, p: Post, row: Option<Cell>)
    requires m.start <= m.end
  {
    p.value != p.previous && EntryOf(row) != Filled(m, today, p.value)
  }

  function Pending(m: Month, today: int, posts: map<int, Post>, stored: map<int, Option<Cell>>): map<int, Entry>
    requires m.start <= m.end && stored.Keys == posts.Keys
  {
    map b | b in posts && IsPending(m, today, posts[b], stored[b]) :: Filled(m, today, posts[b].value)
  }

  ghost function Judge(m: Month, today: int, open: set<int>, posts: map<int, Post>, 
                       stored: map<int, Option<Cell>>): Verdict
    requires m.start <= m.end && stored.Keys == posts.Keys
  {
    var unknown := set b | b in posts && b !in open;
    if posts.Keys == {} then Untouched
    else if exists b | b in unknown :: posts[b].previous.amount.Some? then Conflict
    else if exists b | b in unknown :: posts[b].value.amount.Some? then NotOpen
    else if exists b | b in posts :: IsStale(posts[b], stored[b]) then Conflict
    else if Pending(m, today, posts, stored) == map[] then Untouched
    else Write(Pending(m, today, posts, stored))
  }

  /** The rows to write, or nothing when some row went stale; found row by row. */
  method CollectPending(m: Month, today: int, posts: map<int, Post>, stored: map<int, Option<Cell>>)
    returns (pending: Option<map<int, Entry>>)
    requires m.start <= m.end && stored.Keys == posts.Keys
    ensures pending.None? <==> exists b :: b in posts && IsStale(posts[b], stored[b])
    ensures pending.Some? ==> pending.value == Pending(m, today, posts, stored)
  {
    var order := Elements(posts.Keys);
    var found: map<int, Entry> := map[];
    for i := 0 to |order|
      invariant forall j | 0 <= j < i :: order[j] in posts && !IsStale(posts[order[j]], stored[order[j]])
      invariant forall b | b in found :: (
        b in posts && IsPending(m, today, posts[b], stored[b]) && found[b] == Filled(m, today, posts[b].value))
      invariant forall j | 0 <= j < i && order[j] in posts && IsPending(m, today, posts[order[j]], stored[order[j]]) ::
        order[j] in found
    {
      var b := order[i];
      assert b in order;
      var p, row := posts[b], stored[b];
      if p.value != p.previous {
        if EntryOf(row) != p.previous {
          return None;
        }
        var filled := Filled(m, today, p.value);
        if EntryOf(row) != filled {
          found := found[b := filled];
        }
      }
    }
    assert forall b | b in posts :: b in order;
    ghost var want := Pending(m, today, posts, stored);
    assert forall b: int :: b in found <==> b in want;
    assert forall b: int | b in found :: found[b] == want[b];
    MapExt(found, want);
    pending := Some(found);
  }

  /** `save_yandex_pay` up to its first write. */
  method JudgeBatch(m: Month, today: int, open: set<int>, posts: map<int, Post>, stored: map<int, Option<Cell>>)
    returns (v: Verdict)
    requires m.start <= m.end && stored.Keys == posts.Keys
    ensures v == Judge(m, today, open, posts, stored)
  {
    if posts.Keys == {} {
      return Untouched;
    }
    if exists b | b in posts.Keys && b !in open :: posts[b].previous.amount.Some? {
      return Conflict;
    }
    if exists b | b in posts.Keys && b !in open :: posts[b].value.amount.Some? {
      return NotOpen;
    }
    var pending := CollectPending(m, today, posts, stored);
    if pending.None? {
      return Conflict;
    }
    v := if pending.value == map[] then Untouched else Write(pending.value);
  }

  /** What a batch is about to write: rows that still hold what their editor saw, with sound new values. */
  lemma WrittenRowsWereFresh(m: Month, today: int, open: set<int>, posts: map<int, Post>, 
                             stored: map<int, Option<Cell>>)
    requires m.start <= m.end && m.start <= today && stored.Keys == posts.Keys
    requires forall b | b in posts :: ValidPost(m, today, posts[b])
    requires Judge(m, today, open, posts, stored).Write?
    ensures var pending := Judge(m, today, open, posts, stored).pending;
      forall b | b in pending :: (
        && b in posts && EntryOf(stored[b]) == posts[b].previous && pending[b] == Filled(m, today, posts[b].value)
        && SoundEntry(m, today, pending[b]) && (stored[b].None? ==> pending[b].amount.Some?))
  {
    forall b | b in Pending(m, today, posts, stored) ensures EntryOf(stored[b]) == posts[b].previous {
      assert !IsStale(posts[b], stored[b]);
    }
  }

  /** Either nothing, or a non-negative amount reaching a day of the month that has come. */
  predicate SoundEntry(m: Month, today: int, e: Entry) {
    if e.amount.None? then e.through.None?
    else e.through.Some? && ValidCell(m, today, Cell(0, e.amount.value, e.through.value, None))
  }

  // ---------------------------------------------------------------- interleaved saves

  datatype Change = Change(branch: int, value: Entry)

  /**
   * An open transaction past its read on day `began`; `writes` are its uncommitted rows (absent: deleted), each
   * locked.
   */
  datatype Save = Save(
    posts: map<int, Post>, author: Option<int>, began: int, snapshot: map<int, Option<Cell>>, plan: seq<Change>,
    done: nat, writes: map<int, Option<Cell>>)

  datatype Db = Db(month: Month, today: int, cells: map<int, Cell>, nextId: int, active: map<int, Save>)

  datatype Step =
    | Begin(i: int, posts: map<int, Post>, open: set<int>, author: Option<int>)
    | WriteNext(i: int)
    | Commit(i: int)
    | Abandon(i: int)
    | NextDay

  function Look(cells: map<int, Cell>, b: int): Option<Cell> {
    if b in cells then Some(cells[b]) else None
  }

  function Snapshot(cells: map<int, Cell>, keys: set<int>): map<int, Option<Cell>> {
    map b | b in keys :: Look(cells, b)
  }

  ghost predicate PlanOf(pending: map<int, Entry>, plan: seq<Change>) {
    && (forall p, q | 0 <= p < q < |plan| :: plan[p].branch < plan[q].branch)
    && (forall p | 0 <= p < |plan| :: plan[p].branch in pending && plan[p].value == pending[plan[p].branch])
    && (forall b | b in pending :: exists p :: 0 <= p < |plan| && plan[p].branch == b)
  }

  function FirstState(db: Db, posts: map<int, Post>, author: Option<int>, plan: seq<Change>): Save {
    Save(posts, author, db.today, Snapshot(db.cells, posts.Keys), plan, 0, map[])
  }

  ghost predicate Begun(db: Db, i: int, posts: map<int, Post>, author: Option<int>, pending: map<int, Entry>,
                        plan: seq<Change>, after: Db) {
    PlanOf(pending, plan) && after == db.(active := db.active[i := FirstState(db, posts, author, plan)])
  }

  ghost predicate BeginStep(db: Db, i: int, posts: map<int, Post>, open: set<int>, author: Option<int>, after: Db)
    requires db.month.start <= db.month.end
  {
    && i !in db.active && db.month.start <= db.today
    && (forall b | b in posts :: ValidPost(db.month, db.today, posts[b]))
    && var v := Judge(db.month, db.today, open, posts, Snapshot(db.cells, posts.Keys));
    && if !v.Write? then after == db else exists plan :: Begun(db, i, posts, author, v.pending, plan, after)
  }

  function Read(t: Save, b: int): Option<Cell> {
    if b in t.snapshot then t.snapshot[b] else None
  }

  /**
   * An INSERT waits for whoever is changing the branch's row; an UPDATE or DELETE for whoever is changing that very
   * row.
   */
  predicate WaitsFor(db: Db, i: int, j: int) {
    && i in db.active && j in db.active && i != j
    && var t := db.active[i];
    && t.done < |t.plan|
    && var b := t.plan[t.done].branch;
    && b in db.active[j].writes
    && (Read(t, b).None? || (b in db.cells && db.cells[b].id == Read(t, b).value.id))
  }

  predicate Blocked(db: Db, i: int) {
    exists j :: j in db.active && WaitsFor(db, i, j)
  }

  /** The guard of the write: still no row, or still the row that was read, with the pair the editor saw. */
  predicate GuardHolds(cells: map<int, Cell>, t: Save, b: int)
    requires b in t.posts
  {
    if Read(t, b).None? then b !in cells
    else b in cells && cells[b].id == Read(t, b).value.id && EntryOf(Some(cells[b])) == t.posts[b].previous
  }

  function Written(t: Save, nextId: int, c: Change): Option<Cell> {
    if c.value.amount.None? || c.value.through.None? then None
    else
      var id := if Read(t, c.branch).Some? then Read(t, c.branch).value.id else nextId;
      Some(Cell(id, c.value.amount.value, c.value.through.value, t.author))
  }

  function AfterWrite(t: Save, nextId: int): Save
    requires t.done < |t.plan|
  {
    var c := t.plan[t.done];
    t.(done := t.done + 1, writes := t.writes[c.branch := Written(t, nextId, c)])
  }

  ghost predicate WriteStep(db: Db, i: int, after: Db) {
    && i in db.active && !Blocked(db, i)
    && var t := db.active[i];
    && t.done < |t.plan| && t.plan[t.done].branch in t.posts
    && after == if GuardHolds(db.cells, t, t.plan[t.done].branch)
                then db.(nextId := db.nextId + 1, active := db.active[i := AfterWrite(t, db.nextId)])
                else db.(active := db.active - {i})
  }

  function Applied(cells: map<int, Cell>, writes: map<int, Option<Cell>>): map<int, Cell> {
    map b | b in cells.Keys + writes.Keys && (b in writes ==> writes[b].Some?) ::
      if b in writes then writes[b].value else cells[b]
  }

  ghost predicate CommitStep(db: Db, i: int, after: Db) {
    && i in db.active && db.active[i].done == |db.active[i].plan|
    && after == db.(cells := Applied(db.cells, db.active[i].writes), active := db.active - {i})
  }

  ghost predicate Next(db: Db, step: Step, after: Db)
    requires db.month.start <= db.month.end
  {
    match step
    case Begin(i, posts, open, author) => BeginStep(db, i, posts, open, author, after)
    case WriteNext(i) => WriteStep(db, i, after)
    case Commit(i) => CommitStep(db, i, after)
    case Abandon(i) => i in db.active && after == db.(active := db.active - {i})
    case NextDay => after == db.(today := db.today + 1)
  }

  // ---------------------------------------------------------------- the invariant

  /** A planned change is an edit of a row that was read as its editor saw it, with a sound new value. */
  ghost predicate PlannedFresh(m: Month, today: int, t: Save, c: Change)
    requires m.start <= m.end
  {
    && c.branch in t.posts && c.branch in t.snapshot
    && EntryOf(t.snapshot[c.branch]) == t.posts[c.branch].previous
    && SoundEntry(m, today, c.value)
    && c.value == Filled(m, t.began, t.posts[c.branch].value)
  }

  ghost predicate PlansOwnPending(m: Month, t: Save)
    requires m.start <= m.end
  {
    PlansPending(m, t.began, t.posts, t.snapshot, t.plan)
  }

  predicate IsPlanned(plan: seq<Change>, b: int) {
    exists p :: 0 <= p < |plan| && plan[p].branch == b
  }

  /** Every posted row was read, and the plan holds exactly the pending ones. */
  ghost predicate PlansPending(m: Month, began: int, posts: map<int, Post>, snapshot: map<int, Option<Cell>>,
                               plan: seq<Change>)
    requires m.start <= m.end
  {
    && posts.Keys == snapshot.Keys
    && (forall b :: IsPlanned(plan, b) <==> b in posts && IsPending(m, began, posts[b], snapshot[b]))
  }

  ghost predicate IsWritten(t: Save, b: int) {
    exists p :: 0 <= p < t.done && p < |t.plan| && t.plan[p].branch == b
  }

  ghost predicate WrittenExactly(t: Save) {
    && (forall b :: b in t.writes <==> IsWritten(t, b))
    && (forall p | 0 <= p < t.done && p < |t.plan| && t.plan[p].branch in t.writes ::
          var w := t.writes[t.plan[p].branch];
          EntryOf(w) == t.plan[p].value && (w.Some? ==> w.value.author == t.author))
  }

  ghost predicate SaveOk(db: Db, t: Save)
    requires db.month.start <= db.month.end
  {
    && t.done <= |t.plan|
    && (forall p, q | 0 <= p < q < |t.plan| :: t.plan[p].branch < t.plan[q].branch)
    && (forall p | 0 <= p < |t.plan| :: PlannedFresh(db.month, db.today, t, t.plan[p]))
    && WrittenExactly(t)
    && (forall b | b in t.writes :: b in t.posts && GuardHolds(db.cells, t, b))
  }

  ghost predicate Apart(t: Save, u: Save) {
    t.writes.Keys !! u.writes.Keys
  }

  ghost predicate Inv(db: Db) {
    && db.month.start <= db.month.end
    && (forall b | b in db.cells :: ValidCell(db.month, db.today, db.cells[b]))
    && (forall i | i in db.active :: SaveOk(db, db.active[i]) && PlansOwnPending(db.month, db.active[i]))
    && (forall i, j | i in db.active && j in db.active && i != j :: Apart(db.active[i], db.active[j]))
  }

  ghost predicate Initial(db: Db) {
    && db.month.start <= db.month.end && db.active == map[]
    && (forall b | b in db.cells :: ValidCell(db.month, db.today, db.cells[b]))
  }

  ghost predicate IsRun(run: seq<Db>, steps: seq<Step>) {
    && |run| == |steps| + 1 && Initial(run[0])
    && (forall n | 0 <= n < |run| :: run[n].month.start <= run[n].month.end)
    && forall n | 0 <= n < |steps| :: Next(run[n], steps[n], run[n + 1])
  }

  lemma BeginKeepsInv(db: Db, i: int, posts: map<int, Post>, open: set<int>, author: Option<int>, after: Db)
    requires Inv(db) && BeginStep(db, i, posts, open, author, after)
    ensures Inv(after)
  {
    hide Judge, SaveOk, PlansPending;
    var v := Judge(db.month, db.today, open, posts, Snapshot(db.cells, posts.Keys));
    if v.Write? {
      var plan :| Begun(db, i, posts, author, v.pending, plan, after);
      FirstStateOk(db, posts, open, author, plan);
      FirstPlansPending(db.month, db.today, open, posts, Snapshot(db.cells, posts.Keys), plan);
      SaveOkSame(db, after, FirstState(db, posts, author, plan));
      forall j | j in db.active ensures SaveOk(after, db.active[j]) {
        SaveOkSame(db, after, db.active[j]);
      }
    }
  }

  lemma FirstStateOk(db: Db, posts: map<int, Post>, open: set<int>, author: Option<int>, plan: seq<Change>)
    requires db.month.start <= db.month.end && db.month.start <= db.today
    requires forall b | b in posts :: ValidPost(db.month, db.today, posts[b])
    requires Judge(db.month, db.today, open, posts, Snapshot(db.cells, posts.Keys)).Write?
    requires PlanOf(Judge(db.month, db.today, open, posts, Snapshot(db.cells, posts.Keys)).pending, plan)
    ensures SaveOk(db, FirstState(db, posts, author, plan))
  {
    var snapshot := Snapshot(db.cells, posts.Keys);
    WrittenRowsWereFresh(db.month, db.today, open, posts, snapshot);
    hide Judge, SoundEntry;
  }

  lemma FirstPlansPending(m: Month, today: int, open: set<int>, posts: map<int, Post>, snapshot: map<int,
                          Option<Cell>>, plan: seq<Change>)
    requires m.start <= m.end && snapshot.Keys == posts.Keys
    requires Judge(m, today, open, posts, snapshot).Write?
    requires PlanOf(Judge(m, today, open, posts, snapshot).pending, plan)
    ensures PlansPending(m, today, posts, snapshot, plan)
  {
    var pending := Judge(m, today, open, posts, snapshot).pending;
    assert pending == Pending(m, today, posts, snapshot);
    hide Judge;
    forall b ensures IsPlanned(plan, b) <==> b in posts && IsPending(m, today, posts[b], snapshot[b]) {
      assert IsPlanned(plan, b) <==> b in pending;
    }
  }

  lemma SaveOkSame(db: Db, after: Db, t: Save)
    requires db.month.start <= db.month.end && SaveOk(db, t)
    requires after.month == db.month && after.today == db.today && after.cells == db.cells
    ensures SaveOk(after, t)
  {
  }

  lemma WriteKeepsInv(db: Db, i: int, after: Db)
    requires Inv(db) && WriteStep(db, i, after)
    ensures Inv(after)
  {
    hide SoundEntry, PlansPending;
    var t := db.active[i];
    var b := t.plan[t.done].branch;
    assert SaveOk(db, t);
    if GuardHolds(db.cells, t, b) {
      WriteOk(db, t, after);
      forall j | j in db.active && j != i ensures b !in db.active[j].writes {
        assert !WaitsFor(db, i, j);
      }
    }
    forall j | j in after.active && j != i ensures SaveOk(after, after.active[j]) {
      SaveOkSame(db, after, db.active[j]);
    }
  }

  lemma WriteRecorded(t: Save, nextId: int)
    requires t.done < |t.plan| && WrittenExactly(t)
    requires forall p, q | 0 <= p < q < |t.plan| :: t.plan[p].branch < t.plan[q].branch
    requires forall p | 0 <= p < |t.plan| :: t.plan[p].value.amount.Some? <==> t.plan[p].value.through.Some?
    requires t.plan[t.done].value.amount.None? ==> t.plan[t.done].value == NOTHING
    ensures WrittenExactly(AfterWrite(t, nextId))
  {
    var u := AfterWrite(t, nextId);
    forall b ensures b in u.writes <==> IsWritten(u, b) {
      if IsWritten(t, b) {
        var p :| 0 <= p < t.done && p < |t.plan| && t.plan[p].branch == b;
        assert u.plan[p].branch == b;
      }
      if b == t.plan[t.done].branch {
        assert u.plan[t.done].branch == b;
      }
    }
  }

  lemma WriteOk(db: Db, t: Save, after: Db)
    requires db.month.start <= db.month.end && SaveOk(db, t) && t.done < |t.plan|
    requires t.plan[t.done].branch in t.posts && GuardHolds(db.cells, t, t.plan[t.done].branch)
    requires after.month == db.month && after.today == db.today && after.cells == db.cells
    ensures SaveOk(after, AfterWrite(t, db.nextId))
  {
    forall p | 0 <= p < |t.plan| ensures t.plan[p].value.amount.Some? <==> t.plan[p].value.through.Some? {
      assert PlannedFresh(db.month, db.today, t, t.plan[p]);
    }
    assert PlannedFresh(db.month, db.today, t, t.plan[t.done]);
    WriteRecorded(t, db.nextId);
    hide WrittenExactly, PlannedFresh, IsWritten;
    forall p | 0 <= p < |t.plan| ensures PlannedFresh(after.month, after.today, AfterWrite(t, db.nextId), t.plan[p]) {
      StillFresh(db.month, db.today, t, AfterWrite(t, db.nextId), t.plan[p]);
    }
  }

  lemma StillFresh(m: Month, today: int, t: Save, u: Save, c: Change)
    requires m.start <= m.end && PlannedFresh(m, today, t, c)
    requires u.posts == t.posts && u.snapshot == t.snapshot && u.began == t.began
    ensures PlannedFresh(m, today, u, c)
  {
  }

  lemma CommitKeepsInv(db: Db, i: int, after: Db)
    requires Inv(db) && CommitStep(db, i, after)
    ensures Inv(after)
  {
    var t := db.active[i];
    assert SaveOk(db, t);
    forall b | b in after.cells ensures ValidCell(after.month, after.today, after.cells[b]) {
      if b in t.writes {
        CommittedCell(db, t, b);
      }
    }
    forall j | j in after.active ensures SaveOk(after, after.active[j]) {
      CommitOthers(db, t, db.active[j], after);
    }
  }

  lemma CommittedCell(db: Db, t: Save, b: int)
    requires db.month.start <= db.month.end && SaveOk(db, t) && b in t.writes
    ensures t.writes[b].Some? ==> ValidCell(db.month, db.today, t.writes[b].value)
  {
    var p :| 0 <= p < t.done && p < |t.plan| && t.plan[p].branch == b;
    assert PlannedFresh(db.month, db.today, t, t.plan[p]);
  }

  lemma CommitOthers(db: Db, t: Save, u: Save, after: Db)
    requires db.month.start <= db.month.end && SaveOk(db, u) && Apart(t, u)
    requires after == db.(cells := Applied(db.cells, t.writes), active := after.active)
    ensures SaveOk(after, u)
  {
    hide PlannedFresh;
  }

  lemma StepKeepsInv(db: Db, step: Step, after: Db)
    requires Inv(db) && Next(db, step, after)
    ensures Inv(after)
  {
    hide BeginStep, WriteStep, CommitStep, PlansPending;
    match step
    case Begin(i, posts, open, author) => BeginKeepsInv(db, i, posts, open, author, after);
    case WriteNext(i) => WriteKeepsInv(db, i, after);
    case Commit(i) => CommitKeepsInv(db, i, after);
    case Abandon(i) =>
      forall j | j in after.active ensures SaveOk(after, after.active[j]) {
        SaveOkSame(db, after, db.active[j]);
      }
    case NextDay =>
      forall j | j in after.active ensures SaveOk(after, after.active[j]) {
        NextDayOk(db, db.active[j], after);
      }
  }

  lemma NextDayOk(db: Db, t: Save, after: Db)
    requires db.month.start <= db.month.end && SaveOk(db, t) && after == db.(today := db.today + 1)
    ensures SaveOk(after, t)
  {
    forall p | 0 <= p < |t.plan| ensures PlannedFresh(after.month, after.today, t, t.plan[p]) {
      assert PlannedFresh(db.month, db.today, t, t.plan[p]);
    }
  }

  lemma {:induction false} RunKeepsInv(run: seq<Db>, steps: seq<Step>, n: nat)
    requires IsRun(run, steps) && n < |run|
    ensures Inv(run[n])
    decreases n
  {
    if n > 0 {
      RunKeepsInv(run, steps, n - 1);
      assert Next(run[n - 1], steps[n - 1], run[n - 1 + 1]);
      StepKeepsInv(run[n - 1], steps[n - 1], run[n]);
    }
  }

  // ---------------------------------------------------------------- compare and set, over every interleaving

  /**
   * A committed batch found each pending row as its editor saw it, left them all as posted, and touched no other row.
   */
  lemma CommitIsCompareAndSet(run: seq<Db>, steps: seq<Step>, n: nat, i: int, b: int)
    requires IsRun(run, steps) && n < |steps| && steps[n] == Commit(i)
    ensures i in run[n].active
    ensures CommittedBranch(run[n].month, run[n].active[i], b, Look(run[n].cells, b), Look(run[n + 1].cells, b))
  {
    RunKeepsInv(run, steps, n);
    assert Next(run[n], steps[n], run[n + 1]);
    CommitChecked(run[n], i, run[n + 1], b);
  }

  /** The posted row was an edit, and not one that its filled-in day made equal to the row read. */
  predicate WasPending(m: Month, t: Save, b: int)
    requires m.start <= m.end
  {
    b in t.posts && IsPending(m, t.began, t.posts[b], Read(t, b))
  }

  /**
   * Every pending row, and only those, went from the pair shown to the posted pair; no day posted means the default as
   * of the save's begin.
   */
  ghost predicate CommittedBranch(m: Month, t: Save, b: int, before: Option<Cell>, after: Option<Cell>)
    requires m.start <= m.end
  {
    if WasPending(m, t, b) then
      && EntryOf(before) == t.posts[b].previous && EntryOf(after) == Filled(m, t.began, t.posts[b].value)
      && (after.Some? ==> after.value.author == t.author)
    else after == before
  }

  lemma CommitChecked(db: Db, i: int, after: Db, b: int)
    requires Inv(db) && CommitStep(db, i, after)
    ensures CommittedBranch(db.month, db.active[i], b, Look(db.cells, b), Look(after.cells, b))
  {
    var t := db.active[i];
    assert SaveOk(db, t) && PlansOwnPending(db.month, t);
    assert WasPending(db.month, t, b) <==> IsPlanned(t.plan, b);
    hide PlansPending, IsPending, SoundEntry, Filled;
    if p :| 0 <= p < |t.plan| && t.plan[p].branch == b {
      assert PlannedFresh(db.month, db.today, t, t.plan[p]);
      assert IsWritten(t, b);
    } else {
      assert b !in t.writes;
    }
  }

  /** Every stored row, ever, has a non-negative amount and reaches a day of its month that has come. */
  lemma RowsAlwaysValid(run: seq<Db>, steps: seq<Step>, n: nat, b: int)
    requires IsRun(run, steps) && n < |run| && b in run[n].cells
    ensures ValidCell(run[n].month, run[n].today, run[n].cells[b])
  {
    RunKeepsInv(run, steps, n);
  }

  /** A refused, waiting or abandoned save changes no row. */
  lemma OnlyCommitsWrite(run: seq<Db>, steps: seq<Step>, n: nat)
    requires IsRun(run, steps) && n < |steps| && !steps[n].Commit?
    ensures run[n + 1].cells == run[n].cells
  {
    hide Judge;
    assert Next(run[n], steps[n], run[n + 1]);
  }

  predicate IsWriting(db: Db, i: int) {
    i in db.active && db.active[i].done < |db.active[i].plan|
  }

  function Wanted(db: Db, i: int): int
    requires IsWriting(db, i)
  {
    db.active[i].plan[db.active[i].done].branch
  }

  /** Whoever is waited for has passed the branch, so chains of waits only climb and none closes. */
  lemma WaitsAscend(db: Db, i: int, j: int)
    requires Inv(db) && WaitsFor(db, i, j)
    ensures IsWriting(db, i) && j in db.active && (IsWriting(db, j) ==> Wanted(db, i) < Wanted(db, j))
  {
    hide PlannedFresh;
    assert SaveOk(db, db.active[j]);
    assert IsWritten(db.active[j], Wanted(db, i));
  }

  /** Following the waits from a save, past saves that want smaller branches, reaches one that waits for nobody. */
  lemma {:induction false} SomeSaveFree(db: Db, i: int, rest: set<int>) returns (j: int)
    requires Inv(db) && i in db.active && rest <= db.active.Keys && i in rest
    requires forall m | m in db.active && m !in rest ::
      IsWriting(db, m) && (IsWriting(db, i) ==> Wanted(db, m) < Wanted(db, i))
    ensures j in db.active && !Blocked(db, j)
    decreases rest
  {
    hide Inv, WaitsFor;
    if !Blocked(db, i) {
      j := i;
    } else {
      var n :| n in db.active && WaitsFor(db, i, n);
      WaitsAscend(db, i, n);
      if !Blocked(db, n) {
        j := n;
      } else {
        var w :| w in db.active && WaitsFor(db, n, w);
        WaitsAscend(db, n, w);
        j := SomeSaveFree(db, n, rest - {i});
      }
    }
  }

  /** In every reachable state with a save running, some save can take a step of its own. */
  lemma SomeSaveCanStep(run: seq<Db>, steps: seq<Step>, n: nat) returns (i: int, step: Step, after: Db)
    requires IsRun(run, steps) && n < |run| && run[n].active != map[]
    ensures i in run[n].active && Next(run[n], step, after)
    ensures step == WriteNext(i) || step == Commit(i)
  {
    RunKeepsInv(run, steps, n);
    hide Judge, IsRun, SoundEntry;
    var db := run[n];
    i := SomeSaveFree(db, Any(db.active.Keys), db.active.Keys);
    var t := db.active[i];
    assert SaveOk(db, t);
    if t.done == |t.plan| {
      step, after := Commit(i), db.(cells := Applied(db.cells, t.writes), active := db.active - {i});
    } else {
      assert PlannedFresh(db.month, db.today, t, t.plan[t.done]);
      step := WriteNext(i);
      after := if GuardHolds(db.cells, t, t.plan[t.done].branch)
               then db.(nextId := db.nextId + 1, active := db.active[i := AfterWrite(t, db.nextId)])
               else db.(active := db.active - {i});
    }
  }
}
