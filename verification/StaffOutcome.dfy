/** What each staff step leaves of every row, told over the rows' own fields. */
module StaffOutcome {
  import opened Wrappers
  import opened StaffRules
  import opened StaffSteps

  /** The user's row made by the portal: marked so, or without an id of YClients. */
  predicate IsOwnMirror(r: Row, u: int) {
    r.portalUser == Some(u) && (r.source == Portal || r.external == None)
  }

  /** The user's row given out by YClients. */
  predicate IsOwnCrm(r: Row, u: int) {
    r.portalUser == Some(u) && r.source == Yclients && r.external.Some?
  }

  /** A row of YClients goes before a mirror, then a live one before a fired one, then the greater id. */
  predicate OutRanks(rows: Rows, u: int, a: int, b: int)
    requires a in rows && b in rows
  {
    var (x, y) := (rows[a], rows[b]);
    || (IsOwnCrm(x, u) && !IsOwnCrm(y, u))
    || (IsOwnCrm(x, u) == IsOwnCrm(y, u) && x.fired != 1 && y.fired == 1)
    || (IsOwnCrm(x, u) == IsOwnCrm(y, u) && (x.fired == 1 <==> y.fired == 1) && b < a)
  }

  /** The first of the user's rows in its branch, a branch the user is to show up in. */
  predicate StandsIn(rows: Rows, u: int, targets: set<int>, id: int)
    requires id in rows
  {
    && rows[id].portalUser == Some(u) && rows[id].company.Some? && rows[id].company.value in targets
    && forall j | j in rows && j != id && rows[j].portalUser == Some(u) && rows[j].company == rows[id].company ::
         OutRanks(rows, u, id, j)
  }

  lemma StandsExactly(rows: Rows, u: int, targets: set<int>, id: int)
    requires id in rows
    ensures InTargets(rows[id], targets) && IsStanding(rows, u, id) <==> StandsIn(rows, u, targets, id)
  {
    forall j | j in rows && j != id && rows[j].portalUser == Some(u) && rows[j].company == rows[id].company
      ensures IsLinked(rows, u, j) && SameCompany(rows, j, id)
      ensures rows[id].portalUser == Some(u) ==> (RankLe(rows, u, j, id) <==> OutRanks(rows, u, id, j))
    {
    }
  }

  /** What a sync makes of a row that was there: others' rows stay, each of the user's own as its part says. */
  lemma SyncedRowExactly(rows: Rows, u: User, targets: set<int>, after: Rows, id: int)
    requires IsSynced(rows, u, targets, after) && id in rows
    ensures id in after
    ensures rows[id].portalUser != Some(u.id) ==> after[id] == rows[id]
    ensures IsOwnCrm(rows[id], u.id) && u.syncs && StandsIn(rows, u.id, targets, id)
      ==> after[id] == rows[id].(bookable := true)
    ensures IsOwnCrm(rows[id], u.id) && !(u.syncs && StandsIn(rows, u.id, targets, id)) ==> after[id] == rows[id]
    ensures IsOwnMirror(rows[id], u.id) && u.syncs && StandsIn(rows, u.id, targets, id)
      ==> after[id] == rows[id].(name := u.name, position := u.role, fired := 0, bookable := true)
    ensures IsOwnMirror(rows[id], u.id) && !(u.syncs && StandsIn(rows, u.id, targets, id))
      ==> after[id] == rows[id].(fired := 1)
  {
    StandsExactly(rows, u.id, targets, id);
    if IsActive(u, targets) {
      var top, missing :| SyncedWith(rows, u, targets, top, missing, after);
      assert after[id] == SyncedRow(rows, u, targets, id);
    }
    hide IsStanding, StandsIn, SyncedWith, IsSynced;
  }

  /** The user has no row in the branch. */
  predicate HasNoRow(rows: Rows, u: int, company: int) {
    forall id | id in rows && rows[id].portalUser == Some(u) :: rows[id].company != Some(company)
  }

  /** The row a sync adds for the user in a branch. */
  predicate IsNewRow(r: Row, u: User, company: int) {
    && r.company == Some(company) && r.name == u.name && r.position == u.role && r.source == Portal
    && r.external == None && r.portalUser == Some(u.id) && r.fired == 0 && r.bookable
  }

  predicate IsAdded(u: User, top: int, missing: seq<int>, after: Rows, id: int) {
    && 0 <= id - top - 1 < |missing| && id in after && missing[id - top - 1] in missing
    && IsNewRow(after[id], u, missing[id - top - 1])
  }

  lemma MissingAre(rows: Rows, u: User, targets: set<int>, c: int)
    ensures IsMissing(rows, u, targets, c) <==> c in targets && HasNoRow(rows, u.id, c)
  {
  }

  lemma AddedHere(rows: Rows, u: User, targets: set<int>, top: int, missing: seq<int>, after: Rows, id: int)
    requires SyncedWith(rows, u, targets, top, missing, after) && id in after && id !in rows
    ensures top < id && IsAdded(u, top, missing, after, id)
  {
    assert IsNewMirror(u, top, missing, after, id - top - 1);
  }

  /**
   * Every row a sync adds is a live mirror in a target branch where the user had no row, under an id above all that
   * were there; an inactive user gets none.
   */
  lemma AddedRowExactly(rows: Rows, u: User, targets: set<int>, after: Rows, id: int) returns (c: int)
    requires IsSynced(rows, u, targets, after) && id in after && id !in rows
    ensures u.syncs && c in targets && HasNoRow(rows, u.id, c) && IsNewRow(after[id], u, c)
    ensures forall other | other in rows :: other < id
  {
    hide IsStanding, SyncedRow;
    assert AllFired(rows, u.id).Keys == rows.Keys;
    var top, missing :| SyncedWith(rows, u, targets, top, missing, after);
    AddedHere(rows, u, targets, top, missing, after, id);
    c := missing[id - top - 1];
    MissingAre(rows, u, targets, c);
  }

  /** Every target branch where an active user had no row gets exactly one. */
  lemma MissingBranchExactly(rows: Rows, u: User, targets: set<int>, after: Rows, c: int) returns (id: int)
    requires IsSynced(rows, u, targets, after) && u.syncs && c in targets && HasNoRow(rows, u.id, c)
    ensures id in after && id !in rows && IsNewRow(after[id], u, c)
    ensures forall j | j in after && j !in rows && after[j].company == Some(c) :: j == id
  {
    hide IsStanding, SyncedRow;
    var top, missing :| SyncedWith(rows, u, targets, top, missing, after);
    MissingAre(rows, u, targets, c);
    var i :| 0 <= i < |missing| && missing[i] == c;
    id := top + 1 + i;
    assert IsNewMirror(u, top, missing, after, i);
    AddedHere(rows, u, targets, top, missing, after, id);
    forall j | j in after && j !in rows && after[j].company == Some(c) ensures j == id {
      NewMirrorsDiffer(rows, u, targets, top, missing, after, j, id);
    }
  }

  /** The new rows come in the order of their branches. */
  lemma AddedInOrder(rows: Rows, u: User, targets: set<int>, after: Rows, a: int, b: int)
    requires IsSynced(rows, u, targets, after) && a in after && b in after && a !in rows && b !in rows
    ensures after[a].company.Some? && after[b].company.Some?
    ensures a < b <==> after[a].company.value < after[b].company.value
  {
    hide IsStanding, SyncedRow, IsMissing;
    assert AllFired(rows, u.id).Keys == rows.Keys;
    var top, missing :| SyncedWith(rows, u, targets, top, missing, after);
    AddedHere(rows, u, targets, top, missing, after, a);
    AddedHere(rows, u, targets, top, missing, after, b);
  }

  // ---------------------------------------------------------------- linking, unlinking, detaching

  /** A live row of YClients that nobody has, in a branch where the user has none. */
  predicate IsFree(rows: Rows, u: int, staff: int) {
    && staff in rows && rows[staff].source == Yclients && rows[staff].external.Some?
    && rows[staff].fired == 0 && rows[staff].portalUser == None
    && forall id | id in rows && IsOwnCrm(rows[id], u) :: rows[id].company != rows[staff].company
  }

  lemma ClaimExactly(rows: Rows, u: int, staff: int)
    ensures CanClaim(rows, u, staff) <==> IsFree(rows, u, staff)
  {
  }

  /** A link gives the row its user, lets go of the user's mirrors in that branch, fired, and leaves the rest. */
  lemma LinkedExactly(rows: Rows, u: int, staff: int, id: int)
    requires IsFree(rows, u, staff) && id in rows
    ensures Linked(rows, u, staff).Keys == rows.Keys
    ensures Linked(rows, u, staff)[id] ==
      if id == staff then rows[id].(portalUser := Some(u))
      else if IsOwnMirror(rows[id], u) && rows[id].company == rows[staff].company
      then rows[id].(fired := 1, portalUser := None)
      else rows[id]
  {
  }

  /** Detaching fires the user's mirrors, lets go of the user's rows of YClients, and leaves the rest. */
  lemma DetachedExactly(rows: Rows, u: int, id: int)
    requires id in rows
    ensures Detached(rows, u).Keys == rows.Keys
    ensures Detached(rows, u)[id] ==
      if IsOwnMirror(rows[id], u) then rows[id].(fired := 1)
      else if IsOwnCrm(rows[id], u) then rows[id].(portalUser := None)
      else rows[id]
  {
  }

  /** An unlink takes one row of YClients from its user before the sync. */
  lemma UnlinkedExactly(rows: Rows, u: User, staff: int, targets: set<int>, after: Rows)
    requires StepTo(rows, UnlinkStaff(u, staff, targets), after)
    ensures staff in rows && IsOwnCrm(rows[staff], u.id)
    ensures IsSynced(rows[staff := rows[staff].(portalUser := None)], u, targets, after)
    ensures staff in after && after[staff] == rows[staff].(portalUser := None)
  {
    SyncedRowExactly(Released(rows, staff), u, targets, after, staff);
  }

  // ---------------------------------------------------------------- over any run

  /** Any steps one after another are a run. */
  lemma RunGoesOn(states: seq<Rows>, steps: seq<Step>, step: Step, after: Rows)
    requires (states == [] && steps == []) || (IsRun(states, steps) && StepTo(states[|steps|], step, after))
    ensures if states == [] then IsRun([after], []) else IsRun(states + [after], steps + [step])
  {
    hide StepTo;
    if states != [] {
      var (longer, more) := (states + [after], steps + [step]);
      forall n | 0 <= n < |more| ensures StepTo(longer[n], more[n], longer[n + 1]) {
        assert n < |steps| ==> longer[n] == states[n] && longer[n + 1] == states[n + 1] && more[n] == steps[n];
      }
    }
  }

  /**
   * Over any run every row stays, in its branch and with its origin and id; one of YClients with its name and fired
   * mark too, and one of nobody that YClients does not know exactly as it was.
   */
  lemma RowsStay(states: seq<Rows>, steps: seq<Step>, id: int)
    requires IsRun(states, steps) && id in states[0]
    ensures id in states[|steps|]
    ensures var (r, q) := (states[0][id], states[|steps|][id]);
      && q.company == r.company && q.source == r.source && q.external == r.external
      && (r.source == Yclients && (r.portalUser.None? || r.external.Some?) ==> q.name == r.name && q.fired == r.fired)
      && (r.portalUser.None? && r.external.None? ==> q == r)
  {
    RunKeeps(states, steps, id);
  }
}
