/** Runs of sync, link, unlink and detach over the staff table. */
module StaffSteps {
  import opened Wrappers
  import opened StaffRules

  datatype LinkError = NotFound | Refused | Conflict

  /** A row YClients gave out. */
  predicate IsLinkable(r: Row) {
    !IsMirror(r) && r.external.Some?
  }

  predicate HasCrmAt(rows: Rows, u: int, company: Option<int>) {
    exists id :: id in rows && IsCrm(rows, u, id) && rows[id].company == company
  }

  /** A free, live YClients row of a branch where the user has no linked row yet. */
  predicate CanClaim(rows: Rows, u: int, staff: int) {
    && staff in rows && rows[staff].fired == 0 && IsLinkable(rows[staff])
    && rows[staff].portalUser.None? && !HasCrmAt(rows, u, rows[staff].company)
  }

  predicate IsRetired(rows: Rows, u: int, staff: int, id: int)
    requires staff in rows
  {
    IsLinked(rows, u, id) && IsMirror(rows[id]) && rows[id].company == rows[staff].company
  }

  /** The link is made and the user's mirrors of that branch are fired and let go. */
  function Linked(rows: Rows, u: int, staff: int): Rows
    requires staff in rows
  {
    map id | id in rows ::
      if id == staff then rows[id].(portalUser := Some(u))
      else if IsRetired(rows, u, staff, id) then rows[id].(fired := 1, portalUser := None)
      else rows[id]
  }

  function Released(rows: Rows, staff: int): Rows
    requires staff in rows
  {
    rows[staff := rows[staff].(portalUser := None)]
  }

  /** Before the account is deleted: its mirrors are fired, its YClients rows let go. */
  function Detached(rows: Rows, u: int): Rows {
    map id | id in rows ::
      if IsCrm(rows, u, id) then rows[id].(portalUser := None) else FiredRow(rows, u, id)
  }

  datatype Step =
    | SyncUser(user: User, targets: set<int>)
    | LinkStaff(user: User, staff: int)
    | UnlinkStaff(user: User, staff: int, targets: set<int>)
    | DetachUser(user: User)

  ghost predicate StepTo(rows: Rows, s: Step, after: Rows) {
    match s
    case SyncUser(u, targets) => IsSynced(rows, u, targets, after)
    case LinkStaff(u, staff) => CanClaim(rows, u.id, staff) && after == Linked(rows, u.id, staff)
    case UnlinkStaff(u, staff, targets) =>
      IsCrm(rows, u.id, staff) && IsSynced(Released(rows, staff), u, targets, after)
    case DetachUser(u) => after == Detached(rows, u.id)
  }

  ghost predicate IsRun(states: seq<Rows>, steps: seq<Step>) {
    |states| == |steps| + 1 && forall i | 0 <= i < |steps| :: StepTo(states[i], steps[i], states[i + 1])
  }

  // ---------------------------------------------------------------- what one step leaves

  /** What a step may do to a row that was there before. */
  predicate Keeps(r: Row, q: Row) {
    && q.company == r.company && q.source == r.source && q.external == r.external
    && (!IsMirror(r) ==> !IsMirror(q) && q.name == r.name && q.fired == r.fired)
    && (r.portalUser.None? && r.external.None? ==> q == r)
  }

  lemma SyncKeeps(rows: Rows, u: User, targets: set<int>, after: Rows, id: int)
    requires IsSynced(rows, u, targets, after) && id in rows
    ensures id in after && Keeps(rows[id], after[id]) && after[id].portalUser == rows[id].portalUser
  {
    if IsActive(u, targets) {
      var top, missing :| SyncedWith(rows, u, targets, top, missing, after);
      assert after[id] == SyncedRow(rows, u, targets, id);
    }
  }

  lemma StepKeeps(rows: Rows, s: Step, after: Rows, id: int)
    requires StepTo(rows, s, after) && id in rows
    ensures id in after && Keeps(rows[id], after[id])
  {
    match s
    case SyncUser(u, targets) =>
      SyncKeeps(rows, u, targets, after, id);
    case LinkStaff(u, staff) =>
    case UnlinkStaff(u, staff, targets) =>
      assert Keeps(rows[id], Released(rows, staff)[id]);
      SyncKeeps(Released(rows, staff), u, targets, after, id);
    case DetachUser(u) =>
  }

  /**
   * Over any run a row of YClients stays, with its name and `fired`, and a row linked to nobody and unknown to
   * YClients stays as it is.
   */
  lemma {:induction false} RunKeeps(states: seq<Rows>, steps: seq<Step>, id: int)
    requires IsRun(states, steps) && id in states[0]
    ensures id in states[|steps|] && Keeps(states[0][id], states[|steps|][id])
    decreases |steps|
  {
    if |steps| > 0 {
      var n := |steps| - 1;
      RunKeeps(states[..n + 1], steps[..n], id);
      assert states[..n + 1][0] == states[0] && states[..n + 1][n] == states[n];
      StepKeeps(states[n], steps[n], states[n + 1], id);
    }
  }

  // ---------------------------------------------------------------- one linked row per branch

  /** No user has two linked YClients rows in one branch. */
  ghost predicate OneLink(rows: Rows) {
    forall u, a, b | IsCrm(rows, u, a) && IsCrm(rows, u, b) && SameCompany(rows, a, b) :: a == b
  }

  /** A sync makes no link to a YClients row. */
  lemma SyncLinksNothing(rows: Rows, u: User, targets: set<int>, after: Rows, v: int, id: int)
    requires IsSynced(rows, u, targets, after) && IsCrm(after, v, id)
    ensures IsCrm(rows, v, id) && after[id].company == rows[id].company
  {
    if IsActive(u, targets) {
      var top, missing :| SyncedWith(rows, u, targets, top, missing, after);
      SyncedShape(rows, u, targets, top, missing, after, id);
    }
  }

  lemma SyncOneLink(rows: Rows, u: User, targets: set<int>, after: Rows)
    requires IsSynced(rows, u, targets, after) && OneLink(rows)
    ensures OneLink(after)
  {
    forall v, a, b | IsCrm(after, v, a) && IsCrm(after, v, b) && SameCompany(after, a, b) ensures a == b {
      SyncLinksNothing(rows, u, targets, after, v, a);
      SyncLinksNothing(rows, u, targets, after, v, b);
      assert SameCompany(rows, a, b);
    }
  }

  lemma LinkOneLink(rows: Rows, u: int, staff: int)
    requires CanClaim(rows, u, staff) && OneLink(rows)
    ensures OneLink(Linked(rows, u, staff))
  {
    var after := Linked(rows, u, staff);
    forall v, a, b | IsCrm(after, v, a) && IsCrm(after, v, b) && SameCompany(after, a, b) ensures a == b {
      assert SameCompany(rows, a, b);
      assert a != staff ==> IsCrm(rows, v, a);
      assert b != staff ==> IsCrm(rows, v, b);
    }
  }

  lemma StepOneLink(rows: Rows, s: Step, after: Rows)
    requires StepTo(rows, s, after) && OneLink(rows)
    ensures OneLink(after)
  {
    match s
    case SyncUser(u, targets) =>
      SyncOneLink(rows, u, targets, after);
    case LinkStaff(u, staff) =>
      LinkOneLink(rows, u.id, staff);
    case UnlinkStaff(u, staff, targets) =>
      var mid := Released(rows, staff);
      forall v, a, b | IsCrm(mid, v, a) && IsCrm(mid, v, b) && SameCompany(mid, a, b) ensures a == b {
        assert IsCrm(rows, v, a) && IsCrm(rows, v, b) && SameCompany(rows, a, b);
      }
      SyncOneLink(mid, u, targets, after);
    case DetachUser(u) =>
      forall v, a, b | IsCrm(after, v, a) && IsCrm(after, v, b) && SameCompany(after, a, b) ensures a == b {
        assert IsCrm(rows, v, a) && IsCrm(rows, v, b) && SameCompany(rows, a, b);
      }
  }

  /** Whatever is synced, linked, unlinked and detached, a user never gets a second linked row in a branch. */
  lemma {:induction false} RunKeepsOneLink(states: seq<Rows>, steps: seq<Step>)
    requires IsRun(states, steps) && OneLink(states[0])
    ensures OneLink(states[|steps|])
    decreases |steps|
  {
    if |steps| > 0 {
      var n := |steps| - 1;
      RunKeepsOneLink(states[..n + 1], steps[..n]);
      assert states[..n + 1][0] == states[0] && states[..n + 1][n] == states[n];
      StepOneLink(states[n], steps[n], states[n + 1]);
    }
  }

  // ---------------------------------------------------------------- a link and back

  /** A mirror the link retired is never woken again, whatever runs later. */
  lemma RetiredMirrorStays(rows: Rows, u: User, staff: int, states: seq<Rows>, steps: seq<Step>, id: int)
    requires CanClaim(rows, u.id, staff) && IsRetired(rows, u.id, staff, id) && rows[id].external.None?
    requires IsRun(states, steps) && states[0] == Linked(rows, u.id, staff)
    ensures id in states[|steps|] && states[|steps|][id] == rows[id].(fired := 1, portalUser := None)
  {
    assert id != staff;
    RunKeeps(states, steps, id);
  }

  /**
   * Linking and at once unlinking gives the YClients row back as it was, and an active user a live mirror in that
   * branch.
   */
  lemma LinkThenUnlink(rows: Rows, u: User, staff: int, targets: set<int>, after: Rows)
    requires CanClaim(rows, u.id, staff) && rows[staff].company.Some?
    requires StepTo(Linked(rows, u.id, staff), UnlinkStaff(u, staff, targets), after)
    ensures staff in after && after[staff] == rows[staff]
    ensures u.syncs && rows[staff].company.value in targets ==>
      exists id ::
        && IsStanding(after, u.id, id) && IsMirror(after[id]) && after[id].fired == 0
        && after[id].company == rows[staff].company
  {
    var mid := Released(Linked(rows, u.id, staff), staff);
    assert mid[staff] == rows[staff];
    SyncKeeps(mid, u, targets, after, staff);
    if IsActive(u, targets) {
      var top, missing :| SyncedWith(mid, u, targets, top, missing, after);
      assert after[staff] == SyncedRow(mid, u, targets, staff);
      OneStandingPerBranch(mid, u, targets, after);
      if rows[staff].company.value in targets {
        var c := rows[staff].company.value;
        var id :| Serves(after, u, c, id);
        if !IsMirror(after[id]) {
          SyncLinksNothing(mid, u, targets, after, u.id, id);
          assert IsCrm(rows, u.id, id);
        }
      }
    }
  }
}
