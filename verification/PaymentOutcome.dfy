/** What becomes of a batch of Yandex Pay totals, told over the posted pairs, the stored rows and the days. */
module PaymentOutcome {
  import opened Wrappers
  import opened PaymentSaves

  type Posts = map<int, Post>

  type Stored = map<int, Option<Cell>>

  /** The row, or its absence, is what the pair says. */
  predicate IsThere(row: Option<Cell>, e: Entry) {
    match row
    case None => e.amount.None? && e.through.None?
    case Some(c) => e.amount == Some(c.amount) && e.through == Some(c.through)
  }

  /** The day an amount typed without one reaches: the month's last when it is over, else yesterday, else the 1st. */
  function DayOffered(m: Month, today: int): int {
    if m.end < today then m.end else if m.start < today then today - 1 else m.start
  }

  /** The pair a posted row asks to be stored. */
  function Asked(m: Month, today: int, e: Entry): Entry {
    if e.amount.Some? && e.through.None? then Entry(e.amount, Some(DayOffered(m, today))) else e
  }

  predicate SomeClosedShown(posts: Posts, open: set<int>) {
    exists b :: b in posts && b !in open && posts[b].previous.amount.Some?
  }

  predicate SomeClosedTyped(posts: Posts, open: set<int>) {
    exists b :: b in posts && b !in open && posts[b].value.amount.Some?
  }

  /** An edited row is not what its editor saw any more. */
  predicate SomeChangedMeanwhile(posts: Posts, stored: Stored) {
    exists b ::
      b in posts && b in stored && posts[b].value != posts[b].previous && !IsThere(stored[b], posts[b].previous)
  }

  /** An edit that asks for something else than what is stored. */
  predicate IsEdit(m: Month, today: int, p: Post, row: Option<Cell>) {
    p.value != p.previous && !IsThere(row, Asked(m, today, p.value))
  }

  predicate SomeEdit(m: Month, today: int, posts: Posts, stored: Stored) {
    exists b :: b in posts && b in stored && IsEdit(m, today, posts[b], stored[b])
  }

  predicate IsFresh(open: set<int>, posts: Posts, stored: Stored) {
    !SomeClosedShown(posts, open) && !SomeClosedTyped(posts, open) && !SomeChangedMeanwhile(posts, stored)
  }

  lemma AskedIsFilled(m: Month, today: int, e: Entry, row: Option<Cell>)
    requires m.start <= m.end && m.start <= today
    ensures Filled(m, today, e) == Asked(m, today, e)
    ensures EntryOf(row) == e <==> IsThere(row, e)
  {
  }

  /** Each verdict comes exactly when its check is the first to fail, and what is written is exactly the edits. */
  lemma VerdictExactly(m: Month, today: int, open: set<int>, posts: Posts, stored: Stored)
    requires m.start <= m.end && m.start <= today && stored.Keys == posts.Keys
    ensures Judge(m, today, open, posts, stored) == Conflict
      <==> SomeClosedShown(posts, open) || (!SomeClosedTyped(posts, open) && SomeChangedMeanwhile(posts, stored))
    ensures Judge(m, today, open, posts, stored) == NotOpen
      <==> !SomeClosedShown(posts, open) && SomeClosedTyped(posts, open)
    ensures Judge(m, today, open, posts, stored) == Untouched
      <==> IsFresh(open, posts, stored) && !SomeEdit(m, today, posts, stored)
    ensures Judge(m, today, open, posts, stored).Write?
      <==> IsFresh(open, posts, stored) && SomeEdit(m, today, posts, stored)
    ensures Judge(m, today, open, posts, stored).Write? ==>
      var pending := Judge(m, today, open, posts, stored).pending;
      && (forall b :: b in pending <==> b in posts && IsEdit(m, today, posts[b], stored[b]))
      && (forall b | b in pending :: pending[b] == Asked(m, today, posts[b].value))
  {
    assert forall b :: b in stored <==> b in posts;
    assert posts.Keys != {} ==> Any(posts.Keys) in posts;
    forall b | b in posts
      ensures IsPending(m, today, posts[b], stored[b]) <==> IsEdit(m, today, posts[b], stored[b])
      ensures IsStale(posts[b], stored[b])
        <==> posts[b].value != posts[b].previous && !IsThere(stored[b], posts[b].previous)
      ensures Filled(m, today, posts[b].value) == Asked(m, today, posts[b].value)
    {
      AskedIsFilled(m, today, posts[b].value, stored[b]);
      AskedIsFilled(m, today, posts[b].previous, stored[b]);
      AskedIsFilled(m, today, Asked(m, today, posts[b].value), stored[b]);
    }
    hide IsPending, IsEdit, IsStale, Filled;
    var pending := Pending(m, today, posts, stored);
    assert forall b :: b in pending <==> b in posts && IsEdit(m, today, posts[b], stored[b]);
    if b :| b in posts && b in stored && IsEdit(m, today, posts[b], stored[b]) {
      assert b in pending;
    }
    if pending != map[] {
      var b := Any(pending.Keys);
      assert b in stored && IsEdit(m, today, posts[b], stored[b]);
    }
  }

  /** Only rows of open branches are written. */
  lemma WrittenIsOpen(m: Month, today: int, open: set<int>, posts: Posts, stored: Stored, b: int)
    requires m.start <= m.end && m.start <= today && stored.Keys == posts.Keys
    requires forall b | b in posts :: ValidPost(m, today, posts[b])
    requires Judge(m, today, open, posts, stored).Write? && b in Judge(m, today, open, posts, stored).pending
    ensures b in open
  {
    VerdictExactly(m, today, open, posts, stored);
    hide Judge;
    assert b in posts && ValidPost(m, today, posts[b]);
  }

  // ---------------------------------------------------------------- over every interleaving

  /** Step `m` began the save that is open as `i`, and the save still carries what was posted and read then. */
  ghost predicate BegunAt(run: seq<Db>, steps: seq<Step>, m: nat, open: set<int>, i: int, t: Save)
    requires m < |run| && m < |steps| && run[m].month.start <= run[m].month.end
  {
    && steps[m] == Begin(i, t.posts, open, t.author) && t.began == run[m].today
    && t.snapshot == Snapshot(run[m].cells, t.posts.Keys)
    && run[m].month.start <= run[m].today && (forall b | b in t.posts :: ValidPost(run[m].month, t.began, t.posts[b]))
    && Judge(run[m].month, t.began, open, t.posts, t.snapshot).Write?
  }

  predicate SameRequest(t: Save, u: Save) {
    t.posts == u.posts && t.author == u.author && t.began == u.began && t.snapshot == u.snapshot
  }

  lemma {:induction false} OpenWasBegun(run: seq<Db>, steps: seq<Step>, n: nat, i: int)
    returns (m: nat, open: set<int>)
    requires IsRun(run, steps) && n < |run| && i in run[n].active
    ensures m < n && run[m].month == run[n].month && BegunAt(run, steps, m, open, i, run[n].active[i])
    decreases n
  {
    assert n > 0;
    var (was, t) := (run[n - 1], run[n].active[i]);
    assert Next(was, steps[n - 1], run[n - 1 + 1]);
    hide Judge, SoundEntry, ValidPost;
    if i in was.active && SameRequest(was.active[i], t) {
      m, open := OpenWasBegun(run, steps, n - 1, i);
    } else {
      assert steps[n - 1].Begin? && steps[n - 1].i == i;
      m, open := n - 1, steps[n - 1].open;
    }
  }

  /** Over every interleaving, a commit changes only rows of branches that were open when the save began. */
  lemma OnlyOpenBranchesChange(run: seq<Db>, steps: seq<Step>, n: nat, i: int, b: int)
    returns (m: nat, open: set<int>)
    requires IsRun(run, steps) && n < |steps| && steps[n] == Commit(i)
    requires Look(run[n + 1].cells, b) != Look(run[n].cells, b)
    ensures m < n && i in run[n].active && steps[m] == Begin(i, run[n].active[i].posts, open, run[n].active[i].author)
    ensures b in open && b in run[n].active[i].posts
    ensures IsThere(Look(run[n].cells, b), run[n].active[i].posts[b].previous)
    ensures IsThere(Look(run[n + 1].cells, b), Asked(run[m].month, run[m].today, run[n].active[i].posts[b].value))
    ensures b in run[n + 1].cells ==> run[n + 1].cells[b].author == run[n].active[i].author
  {
    CommitIsCompareAndSet(run, steps, n, i, b);
    m, open := OpenWasBegun(run, steps, n, i);
    var t := run[n].active[i];
    hide Judge, ValidPost;
    VerdictExactly(run[m].month, t.began, open, t.posts, t.snapshot);
    WrittenIsOpen(run[m].month, t.began, open, t.posts, t.snapshot, b);
  }

  /** A save is refused in the middle only when the row it is writing is not the one it read any more. */
  lemma RefusedOnlyWhenChanged(run: seq<Db>, steps: seq<Step>, n: nat, i: int)
    requires IsRun(run, steps) && n < |steps| && steps[n] == WriteNext(i)
    requires i in run[n].active && i !in run[n + 1].active
    ensures IsWriting(run[n], i)
    ensures var b := Wanted(run[n], i);
      b in run[n].active[i].snapshot && Look(run[n].cells, b) != run[n].active[i].snapshot[b]
  {
    RunKeepsInv(run, steps, n);
    assert Next(run[n], steps[n], run[n + 1]);
    hide SoundEntry, Judge;
    var t := run[n].active[i];
    assert SaveOk(run[n], t);
    assert PlannedFresh(run[n].month, run[n].today, t, t.plan[t.done]);
  }

  // ---------------------------------------------------------------- the runs there are

  /** What parsing leaves of a posted row: no negative amount, a day of the month that has come, no day alone. */
  lemma ParsedExactly(m: Month, today: int, p: Post)
    ensures ValidPost(m, today, p) <==>
      && (p.value.amount.Some? ==> p.value.amount.value >= 0)
      && (p.value.through.Some? ==> p.value.amount.Some?)
      && (p.value.through.Some? ==> m.start <= p.value.through.value && p.value.through.value <= m.end)
      && (p.value.through.Some? ==> p.value.through.value <= today)
      && (p.previous.through.Some? ==> p.previous.amount.Some?)
  {
  }

  predicate IsSoundRow(m: Month, today: int, c: Cell) {
    c.amount >= 0 && m.start <= c.through && c.through <= m.end && c.through <= today
  }

  /** Any sound rows of a month may be there when nobody is saving. */
  lemma AnyRowsStart(db: Db)
    requires db.month.start <= db.month.end && db.active == map[]
    requires forall b | b in db.cells :: IsSoundRow(db.month, db.today, db.cells[b])
    ensures IsRun([db], [])
  {
  }

  /** A run goes on with any step its last state has. */
  lemma RunGoesOn(run: seq<Db>, steps: seq<Step>, step: Step, after: Db)
    requires IsRun(run, steps) && Next(run[|steps|], step, after)
    ensures IsRun(run + [after], steps + [step])
  {
    hide Next;
    var (longer, more) := (run + [after], steps + [step]);
    assert after.month == run[|steps|].month by {
      MonthStays(run[|steps|], step, after);
    }
    forall n | 0 <= n < |more| ensures Next(longer[n], more[n], longer[n + 1]) {
      assert n < |steps| ==> longer[n] == run[n] && longer[n + 1] == run[n + 1] && more[n] == steps[n];
    }
  }

  lemma MonthStays(db: Db, step: Step, after: Db)
    requires db.month.start <= db.month.end && Next(db, step, after)
    ensures after.month == db.month
  {
    hide Judge;
  }

  /** Every stored row, ever, is sound. */
  lemma RowsAlwaysSound(run: seq<Db>, steps: seq<Step>, n: nat, b: int)
    requires IsRun(run, steps) && n < |run| && b in run[n].cells
    ensures IsSoundRow(run[n].month, run[n].today, run[n].cells[b])
  {
    RowsAlwaysValid(run, steps, n, b);
  }

  lemma {:induction false} SomePlan(pending: map<int, Entry>) returns (plan: seq<Change>)
    ensures PlanOf(pending, plan)
    decreases |pending|
  {
    if pending.Keys == {} {
      plan := [];
    } else {
      var b := Greatest(pending.Keys);
      var rest := map a | a in pending && a != b :: pending[a];
      assert rest.Keys == pending.Keys - {b};
      var front := SomePlan(rest);
      plan := front + [Change(b, pending[b])];
      PlanMore(pending, rest, front, b);
    }
  }

  lemma PlanMore(pending: map<int, Entry>, rest: map<int, Entry>, front: seq<Change>, b: int)
    requires b in pending && rest == (map a | a in pending && a != b :: pending[a]) && PlanOf(rest, front)
    requires forall a | a in pending :: a <= b
    ensures PlanOf(pending, front + [Change(b, pending[b])])
  {
    var plan := front + [Change(b, pending[b])];
    forall a | a in pending ensures exists p :: 0 <= p < |plan| && plan[p].branch == a {
      if a == b {
        assert plan[|front|].branch == a;
      } else {
        assert a in rest;
        var p :| 0 <= p < |front| && front[p].branch == a;
        assert plan[p].branch == a;
      }
    }
  }

  lemma {:induction false} Greatest(keys: set<int>) returns (b: int)
    requires keys != {}
    ensures b in keys && forall a | a in keys :: a <= b
    decreases |keys|
  {
    var a := Any(keys);
    b := a;
    if keys - {a} != {} {
      var c := Greatest(keys - {a});
      b := if a < c then c else a;
    }
    assert forall d | d in keys :: d == a || d in keys - {a};
  }

  /** Any parsed batch can be posted at any time; it opens a save exactly when it is judged fit to write. */
  lemma AnyBatchBegins(db: Db, i: int, posts: Posts, open: set<int>, author: Option<int>) returns (after: Db)
    requires db.month.start <= db.month.end && db.month.start <= db.today && i !in db.active
    requires forall b | b in posts :: ValidPost(db.month, db.today, posts[b])
    ensures Next(db, Begin(i, posts, open, author), after)
    ensures i in after.active <==> Judge(db.month, db.today, open, posts, Snapshot(db.cells, posts.Keys)).Write?
    ensures after == db.(active := after.active)
  {
    hide Judge, ValidPost;
    var v := Judge(db.month, db.today, open, posts, Snapshot(db.cells, posts.Keys));
    after := db;
    if v.Write? {
      var plan := SomePlan(v.pending);
      after := db.(active := db.active[i := FirstState(db, posts, author, plan)]);
      assert Begun(db, i, posts, author, v.pending, plan, after);
    }
  }

  /** An open save may end without a trace at any time, and a day may pass. */
  lemma AnySaveMayEnd(db: Db, i: int)
    requires db.month.start <= db.month.end
    ensures i in db.active ==> Next(db, Abandon(i), db.(active := db.active - {i}))
    ensures Next(db, NextDay, db.(today := db.today + 1))
  {
  }

  /**
   * A write waits for another save exactly when that has written its branch and is still open, unless the row it read
   * is gone, when there is nothing to wait for.
   */
  lemma WaitsExactly(db: Db, i: int, j: int)
    requires i in db.active && j in db.active && i != j && IsWriting(db, i)
    ensures WaitsFor(db, i, j) <==> Wanted(db, i) in db.active[j].writes && !IsGone(db, i)
  {
  }

  /** The save read a row of its branch that is not there any more. */
  predicate IsGone(db: Db, i: int)
    requires IsWriting(db, i)
  {
    var (t, b) := (db.active[i], Wanted(db, i));
    && b in t.snapshot && t.snapshot[b].Some?
    && (b in db.cells ==> db.cells[b].id != t.snapshot[b].value.id)
  }
}
