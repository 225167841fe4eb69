/** Staff rows of portal users: mirrors the portal makes, rows YClients owns, and the steps that link them. */
module StaffRules {
  import opened Wrappers
  import opened Sorting

  datatype Source = Portal | Yclients

  datatype Row = Row(
    company: Option<int>, name: string, position: string, source: Source, external: Option<int>,
    portalUser: Option<int>, fired: int, bookable: bool)

  type Rows = map<int, Row>

  /** `syncs` is `portal_user_syncs_to_staff`: an active user of a branch-scoped role. */
  datatype User = User(id: int, name: string, role: string, syncs: bool)

  /** The portal's own row. */
  predicate IsMirror(r: Row) {
    r.source == Portal || (r.portalUser.Some? && r.external.None?)
  }

  predicate IsLinked(rows: Rows, u: int, id: int) {
    id in rows && rows[id].portalUser == Some(u)
  }

  /** A YClients row linked to the user. */
  predicate IsCrm(rows: Rows, u: int, id: int) {
    IsLinked(rows, u, id) && !IsMirror(rows[id])
  }

  /**
   * Which of two linked rows stands for the branch: a YClients row over a mirror, a live one over a fired one, then
   * the greater id.
   */
  predicate RankLe(rows: Rows, u: int, a: int, b: int) {
    var (ac, bc) := (IsCrm(rows, u, a), IsCrm(rows, u, b));
    var (al, bl) := (a in rows && rows[a].fired != 1, b in rows && rows[b].fired != 1);
    (!ac && bc) || (ac == bc && ((!al && bl) || (al == bl && a <= b)))
  }

  function RankOrder(rows: Rows, u: int): (int, int) -> bool {
    (a, b) => RankLe(rows, u, a, b)
  }

  lemma RankIsTotal(rows: Rows, u: int)
    ensures TotalOrder(RankOrder(rows, u))
  {
  }

  predicate SameCompany(rows: Rows, a: int, b: int) {
    a in rows && b in rows && rows[a].company == rows[b].company
  }

  /** The row that stands for its branch among the user's rows there. */
  ghost predicate IsStanding(rows: Rows, u: int, id: int) {
    IsLinked(rows, u, id) && forall j | IsLinked(rows, u, j) && SameCompany(rows, j, id) :: RankLe(rows, u, j, id)
  }

  predicate InTargets(r: Row, targets: set<int>) {
    r.company.Some? && r.company.value in targets
  }

  function Mirror(u: User, company: int): Row {
    Row(Some(company), u.name, u.role, Portal, None, Some(u.id), 0, true)
  }

  function Woken(u: User, r: Row): Row {
    r.(name := u.name, position := u.role, fired := 0, bookable := true)
  }

  /** What a sync of an active user with branches makes of an existing row. */
  ghost function SyncedRow(rows: Rows, u: User, targets: set<int>, id: int): Row
    requires id in rows
  {
    var r := rows[id];
    if !IsLinked(rows, u.id, id) then r
    else if IsCrm(rows, u.id, id) then
      if InTargets(r, targets) && IsStanding(rows, u.id, id) then r.(bookable := true) else r
    else if InTargets(r, targets) && IsStanding(rows, u.id, id) then Woken(u, r)
    else r.(fired := 1)
  }

  /** A target branch where the user has no row at all. */
  ghost predicate IsMissing(rows: Rows, u: User, targets: set<int>, c: int) {
    c in targets && forall id | IsLinked(rows, u.id, id) :: rows[id].company != Some(c)
  }

  function FiredRow(rows: Rows, u: int, id: int): Row
    requires id in rows
  {
    if IsLinked(rows, u, id) && IsMirror(rows[id]) then rows[id].(fired := 1) else rows[id]
  }

  /** The user shows in no worker filter: every mirror is fired. */
  function AllFired(rows: Rows, u: int): Rows {
    map id | id in rows :: FiredRow(rows, u, id)
  }

  predicate IsActive(u: User, targets: set<int>) {
    u.syncs && targets != {}
  }

  ghost predicate IsMaxId(rows: Rows, top: int) {
    0 <= top && (forall id | id in rows :: id <= top) && (top == 0 || top in rows)
  }

  ghost predicate Ascending(s: seq<int>) {
    forall i, j | 0 <= i < j < |s| :: s[i] < s[j]
  }

  ghost predicate IsNewMirror(u: User, top: int, missing: seq<int>, after: Rows, i: int)
    requires 0 <= i < |missing|
  {
    top + 1 + i in after && after[top + 1 + i] == Mirror(u, missing[i])
  }

  /** The new mirrors: one per missing branch, in branch order, under the next ids. */
  ghost predicate AddsMirrors(rows: Rows, u: User, top: int, missing: seq<int>, after: Rows) {
    && (forall id | id in after && id !in rows :: top < id <= top + |missing|)
    && (forall i | 0 <= i < |missing| :: IsNewMirror(u, top, missing, after, i))
  }

  ghost predicate SyncedWith(rows: Rows, u: User, targets: set<int>, top: int, missing: seq<int>, after: Rows) {
    && IsMaxId(rows, top) && Ascending(missing) && (forall c :: c in missing <==> IsMissing(rows, u, targets, c))
    && (forall id | id in rows :: id in after && after[id] == SyncedRow(rows, u, targets, id))
    && AddsMirrors(rows, u, top, missing, after)
  }

  /** `after` is what `sync_portal_user_staff` leaves. */
  ghost predicate IsSynced(rows: Rows, u: User, targets: set<int>, after: Rows) {
    if IsActive(u, targets) then exists top, missing :: SyncedWith(rows, u, targets, top, missing, after)
    else after == AllFired(rows, u.id)
  }

  // ---------------------------------------------------------------- what a sync leaves

  /** Rows the sync kept are linked as before, rows it added are mirrors of missing branches. */
  lemma SyncedShape(rows: Rows, u: User, targets: set<int>, top: int, missing: seq<int>, after: Rows, id: int)
    requires SyncedWith(rows, u, targets, top, missing, after) && id in after
    ensures id in rows ==> (
      && after[id].company == rows[id].company && after[id].portalUser == rows[id].portalUser
      && (IsMirror(after[id]) <==> IsMirror(rows[id]))
      && (forall v :: IsLinked(after, v, id) <==> IsLinked(rows, v, id))
      && (forall v :: IsCrm(after, v, id) <==> IsCrm(rows, v, id)))
    ensures id !in rows ==> (
      exists c :: IsMissing(rows, u, targets, c) && after[id] == Mirror(u, c))
  {
    if id !in rows {
      var i := id - top - 1;
      assert IsNewMirror(u, top, missing, after, i);
      assert missing[i] in missing;
    }
  }

  /** Two new mirrors never share a branch. */
  lemma NewMirrorsDiffer(rows: Rows, u: User, targets: set<int>, top: int, missing: seq<int>, after: Rows, a: int,
                         b: int)
    requires SyncedWith(rows, u, targets, top, missing, after)
    requires a in after && b in after && a !in rows && b !in rows && after[a].company == after[b].company
    ensures a == b
  {
    var i, j := a - top - 1, b - top - 1;
    assert IsNewMirror(u, top, missing, after, i) && IsNewMirror(u, top, missing, after, j);
  }

  /** The standing row of a target branch stays the standing one. */
  lemma StandingStays(rows: Rows, u: User, targets: set<int>, top: int, missing: seq<int>, after: Rows, id: int)
    requires SyncedWith(rows, u, targets, top, missing, after)
    requires id in rows && InTargets(rows[id], targets) && IsStanding(rows, u.id, id)
    ensures IsStanding(after, u.id, id)
  {
    SyncedShape(rows, u, targets, top, missing, after, id);
    forall j | IsLinked(after, u.id, j) && SameCompany(after, j, id) ensures RankLe(after, u.id, j, id) {
      SyncedShape(rows, u, targets, top, missing, after, j);
      if j in rows {
        assert SameCompany(rows, j, id) && RankLe(rows, u.id, j, id);
        if j != id && !IsCrm(rows, u.id, id) {
          OneStanding(rows, u.id, id, j);
        }
      }
    }
  }

  /** At most one row stands for a branch. */
  lemma OneStanding(rows: Rows, u: int, a: int, b: int)
    requires IsStanding(rows, u, a) && SameCompany(rows, b, a)
    ensures IsStanding(rows, u, b) ==> a == b
  {
  }

  /** Every target branch has a linked row afterwards, so nothing is missing any more. */
  lemma NothingMissing(rows: Rows, u: User, targets: set<int>, top: int, missing: seq<int>, after: Rows, c: int)
    requires SyncedWith(rows, u, targets, top, missing, after) && c in targets
    ensures !IsMissing(after, u, targets, c)
  {
    if c in missing {
      var i :| 0 <= i < |missing| && missing[i] == c;
      assert IsNewMirror(u, top, missing, after, i);
      assert IsLinked(after, u.id, top + 1 + i);
    } else {
      var id :| IsLinked(rows, u.id, id) && rows[id].company == Some(c);
      SyncedShape(rows, u, targets, top, missing, after, id);
    }
  }

  /** A row the user already stands on, or a fired one, is left alone by the next sync. */
  lemma SettledRow(rows: Rows, u: User, targets: set<int>, top: int, missing: seq<int>, after: Rows, id: int)
    requires SyncedWith(rows, u, targets, top, missing, after) && id in after
    ensures SyncedRow(after, u, targets, id) == after[id]
  {
    hide IsStanding;
    SyncedShape(rows, u, targets, top, missing, after, id);
    if id in rows {
      if IsLinked(rows, u.id, id) && InTargets(rows[id], targets) {
        if IsStanding(rows, u.id, id) {
          StandingStays(rows, u, targets, top, missing, after, id);
        } else {
          var best := StandingOf(rows, u.id, id);
          StandingStays(rows, u, targets, top, missing, after, best);
          SyncedShape(rows, u, targets, top, missing, after, best);
          if IsStanding(after, u.id, id) {
            OneStanding(after, u.id, best, id);
          }
        }
      }
    } else {
      NewMirrorStands(rows, u, targets, top, missing, after, id);
    }
  }

  lemma NewMirrorStands(rows: Rows, u: User, targets: set<int>, top: int, missing: seq<int>, after: Rows, id: int)
    requires SyncedWith(rows, u, targets, top, missing, after) && id in after && id !in rows
    ensures IsStanding(after, u.id, id) && InTargets(after[id], targets)
    ensures after[id] == Woken(u, after[id]) && IsMirror(after[id])
  {
    SyncedShape(rows, u, targets, top, missing, after, id);
    var c :| IsMissing(rows, u, targets, c) && after[id] == Mirror(u, c);
    forall j | IsLinked(after, u.id, j) && SameCompany(after, j, id) ensures j == id {
      SyncedShape(rows, u, targets, top, missing, after, j);
      if j !in rows {
        NewMirrorsDiffer(rows, u, targets, top, missing, after, j, id);
      }
    }
  }

  /** Some row stands for the branch of any linked row. */
  lemma StandingOf(rows: Rows, u: int, id: int) returns (best: int)
    requires IsLinked(rows, u, id)
    ensures IsStanding(rows, u, best) && SameCompany(rows, best, id)
  {
    best := id;
    var rest := set j | j in rows && IsLinked(rows, u, j) && SameCompany(rows, j, id);
    while rest != {}
      invariant IsLinked(rows, u, best) && SameCompany(rows, best, id)
      invariant forall j | IsLinked(rows, u, j) && SameCompany(rows, j, id) :: j in rest || RankLe(rows, u, j, best)
      invariant forall j | j in rest :: j in rows && IsLinked(rows, u, j) && SameCompany(rows, j, id)
    {
      var j := Any(rest);
      rest := rest - {j};
      if !RankLe(rows, u, j, best) {
        best := j;
      }
    }
  }

  /** Syncing twice is syncing once. */
  lemma SyncIdempotent(rows: Rows, u: User, targets: set<int>, after: Rows, again: Rows)
    requires IsSynced(rows, u, targets, after) && IsSynced(after, u, targets, again)
    ensures again == after
  {
    hide SyncedRow;
    if IsActive(u, targets) {
      var top, missing :| SyncedWith(rows, u, targets, top, missing, after);
      var top', missing' :| SyncedWith(after, u, targets, top', missing', again);
      if |missing'| != 0 {
        var c := missing'[0];
        assert c in missing';
        NothingMissing(rows, u, targets, top, missing, after, c);
      }
      forall id | id in after ensures again[id] == after[id] {
        SettledRow(rows, u, targets, top, missing, after, id);
      }
      assert forall id: int :: id in again <==> id in after;
      MapExt(again, after);
    } else {
      assert forall id: int :: id in again <==> id in after;
      MapExt(again, after);
    }
  }

  /** The row stands for the branch and, when it is a mirror, is live and up to date. */
  ghost predicate Serves(rows: Rows, u: User, company: int, id: int) {
    && IsStanding(rows, u.id, id) && rows[id].company == Some(company)
    && (IsMirror(rows[id]) ==> rows[id] == Woken(u, rows[id]))
  }

  /** After a sync every target branch has one standing row, and the user's every other mirror is fired. */
  lemma OneStandingPerBranch(rows: Rows, u: User, targets: set<int>, after: Rows)
    requires IsSynced(rows, u, targets, after)
    ensures IsActive(u, targets) ==> forall c | c in targets :: exists id :: Serves(after, u, c, id)
    ensures forall id | IsLinked(after, u.id, id) && IsMirror(after[id]) && after[id].fired != 1 ::
      IsActive(u, targets) && InTargets(after[id], targets) && IsStanding(after, u.id, id)
  {
    if IsActive(u, targets) {
      var top, missing :| SyncedWith(rows, u, targets, top, missing, after);
      forall c | c in targets
        ensures exists id :: Serves(after, u, c, id)
      {
        NothingMissing(rows, u, targets, top, missing, after, c);
        var id :| IsLinked(after, u.id, id) && after[id].company == Some(c);
        var best := StandingOf(after, u.id, id);
        SettledRow(rows, u, targets, top, missing, after, best);
        assert Serves(after, u, c, best);
      }
      forall id | IsLinked(after, u.id, id) && IsMirror(after[id]) && after[id].fired != 1
        ensures InTargets(after[id], targets) && IsStanding(after, u.id, id)
      {
        SettledRow(rows, u, targets, top, missing, after, id);
      }
    }
  }
}
