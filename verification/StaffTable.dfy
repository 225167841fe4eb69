/** The staff table and the steps that change it: sync, link, unlink and detach. */
module StaffTable {
  import opened Wrappers
  import opened Sorting
  import opened StaffRules
  import opened StaffSteps

  /** Which of a user's rows stands for each branch: the last one in rank order. */
  ghost predicate StandsFor(rows: Rows, u: int, byCompany: map<Option<int>, int>) {
    && (forall c | c in byCompany :: IsStanding(rows, u, byCompany[c]) && rows[byCompany[c]].company == c)
    && (forall id | IsLinked(rows, u, id) :: rows[id].company in byCompany)
  }

  method ChooseStanding(rows: Rows, u: int, linked: seq<int>) returns (byCompany: map<Option<int>, int>)
    requires forall id :: id in linked <==> IsLinked(rows, u, id)
    ensures StandsFor(rows, u, byCompany)
  {
    var sorted := Sort(RankOrder(rows, u), linked);
    RankIsTotal(rows, u);
    SortSorts(RankOrder(rows, u), linked);
    SortPermutes(RankOrder(rows, u), linked);
    byCompany := map[];
    for i := 0 to |sorted|
      invariant forall c | c in byCompany ::
        byCompany[c] in sorted[..i] && IsLinked(rows, u, byCompany[c]) && rows[byCompany[c]].company == c
      invariant forall j | 0 <= j < i && IsLinked(rows, u, sorted[j]) ::
        rows[sorted[j]].company in byCompany && RankLe(rows, u, sorted[j], byCompany[rows[sorted[j]].company])
    {
      assert sorted[i] in sorted;
      forall j | 0 <= j < i ensures RankLe(rows, u, sorted[j], sorted[i]) {
        assert RankOrder(rows, u)(sorted[j], sorted[i]);
      }
      byCompany := byCompany[rows[sorted[i]].company := sorted[i]];
    }
    forall id | IsLinked(rows, u, id)
      ensures rows[id].company in byCompany && RankLe(rows, u, id, byCompany[rows[id].company])
    {
      assert id in sorted;
      var j :| 0 <= j < |sorted| && sorted[j] == id;
    }
  }

  method MaxId(rows: Rows) returns (top: int)
    requires forall id | id in rows :: 0 < id
    ensures IsMaxId(rows, top)
  {
    top := 0;
    var ids := Elements(rows.Keys);
    for i := 0 to |ids|
      invariant 0 <= top && (top == 0 || top in rows) && forall j | 0 <= j < i :: ids[j] <= top
    {
      assert ids[i] in ids;
      if top < ids[i] {
        top := ids[i];
      }
    }
    assert forall id | id in rows :: id in ids;
  }

  // ---------------------------------------------------------------- a sync half way

  /** An existing row once the branches in `served` are done and no mirror is fired yet. */
  ghost function ServedRow(rows: Rows, u: User, served: set<int>, id: int): Row
    requires id in rows
  {
    var r := rows[id];
    if !IsLinked(rows, u.id, id) || !InTargets(r, served) || !IsStanding(rows, u.id, id) then r
    else if IsCrm(rows, u.id, id) then r.(bookable := true) else Woken(u, r)
  }

  ghost predicate Served(rows: Rows, u: User, targets: set<int>, served: set<int>, top: int, missing: seq<int>,
                         now: Rows) {
    && IsMaxId(rows, top) && Ascending(missing)
    && (forall c :: c in missing <==> c in served && IsMissing(rows, u, targets, c))
    && (forall id | id in rows :: id in now && now[id] == ServedRow(rows, u, served, id))
    && AddsMirrors(rows, u, top, missing, now)
  }

  ghost predicate Differs(rows: Rows, now: Rows) {
    exists id :: id in now && (id !in rows || now[id] != rows[id])
  }

  lemma NextId(rows: Rows, u: User, targets: set<int>, served: set<int>, top: int, missing: seq<int>, now: Rows, t: int)
    requires Served(rows, u, targets, served, top, missing, now) && IsMaxId(now, t)
    ensures t == top + |missing|
  {
    if |missing| > 0 {
      assert IsNewMirror(u, top, missing, now, |missing| - 1);
    }
    assert t == 0 || t in now;
    assert top == 0 || top in now;
  }

  /** Serving one more branch that has no row. */
  lemma ServeMissing(rows: Rows, u: User, targets: set<int>, served: set<int>, top: int, missing: seq<int>, now: Rows,
                     c: int)
    requires Served(rows, u, targets, served, top, missing, now) && c in targets && IsMissing(rows, u, targets, c)
    requires forall d | d in served :: d < c
    ensures top + |missing| + 1 !in now
    ensures Served(rows, u, targets, served + {c}, top, missing + [c], now[top + |missing| + 1 := Mirror(u, c)])
  {
    var more, after := missing + [c], now[top + |missing| + 1 := Mirror(u, c)];
    assert forall i | 0 <= i < |missing| :: missing[i] in missing;
    forall i | 0 <= i < |more| ensures IsNewMirror(u, top, more, after, i) {
      assert i < |missing| ==> IsNewMirror(u, top, missing, now, i);
    }
  }

  /** Serving one more branch through its standing row. */
  lemma ServeStanding(rows: Rows, u: User, targets: set<int>, served: set<int>, top: int, missing: seq<int>, now: Rows,
                      c: int, id: int)
    requires Served(rows, u, targets, served, top, missing, now) && c in targets && c !in served
    requires IsStanding(rows, u.id, id) && rows[id].company == Some(c)
    ensures now[id] == rows[id]
    ensures Served(rows, u, targets, served + {c}, top, missing, now[id := ServedRow(rows, u, served + {c}, id)])
  {
    var after := now[id := ServedRow(rows, u, served + {c}, id)];
    assert !IsMissing(rows, u, targets, c);
    forall j | j in rows ensures after[j] == ServedRow(rows, u, served + {c}, j) {
      if j != id && IsLinked(rows, u.id, j) && rows[j].company == Some(c) {
        assert SameCompany(rows, j, id);
        assert !IsStanding(rows, u.id, j) by {
          if IsStanding(rows, u.id, j) {
            OneStanding(rows, u.id, id, j);
          }
        }
      }
    }
    forall i | 0 <= i < |missing| ensures IsNewMirror(u, top, missing, after, i) {
      assert IsNewMirror(u, top, missing, now, i);
    }
  }

  /** What serving one branch does to the table. */
  ghost predicate ServesBranch(now: Rows, u: User, company: int, byCompany: map<Option<int>, int>, after: Rows)
    requires forall c | c in byCompany :: byCompany[c] in now
  {
    if Some(company) in byCompany then
      var id := byCompany[Some(company)];
      after == now[id := if IsCrm(now, u.id, id) then now[id].(bookable := true) else Woken(u, now[id])]
    else exists top :: IsMaxId(now, top) && after == now[top + 1 := Mirror(u, company)]
  }

  lemma ServedKeeps(rows: Rows, u: User, targets: set<int>, served: set<int>, top: int, missing: seq<int>, now: Rows,
                    byCompany: map<Option<int>, int>)
    requires Served(rows, u, targets, served, top, missing, now) && StandsFor(rows, u.id, byCompany)
    ensures forall c | c in byCompany :: byCompany[c] in now
  {
  }

  /** Serving one more branch, in either way. */
  lemma ServeOne(rows: Rows, u: User, targets: set<int>, served: set<int>, top: int, missing: seq<int>, now: Rows,
                 after: Rows,
                 byCompany: map<Option<int>, int>, c: int) returns (more: seq<int>)
    requires Served(rows, u, targets, served, top, missing, now) && StandsFor(rows, u.id, byCompany)
    requires c in targets && forall d | d in served :: d < c
    requires forall c | c in byCompany :: byCompany[c] in now
    requires ServesBranch(now, u, c, byCompany, after)
    ensures Served(rows, u, targets, served + {c}, top, more, after)
    ensures Differs(rows, after) <==> Differs(rows, now) || after != now
  {
    hide Differs;
    if Some(c) in byCompany {
      var id := byCompany[Some(c)];
      ServeStanding(rows, u, targets, served, top, missing, now, c, id);
      DiffersAt(rows, now, id, after[id]);
      assert after == now[id := ServedRow(rows, u, served + {c}, id)];
      assert after[id] == now[id] ==> after == now;
      more := missing;
    } else {
      assert IsMissing(rows, u, targets, c);
      var t :| IsMaxId(now, t) && after == now[t + 1 := Mirror(u, c)];
      NextId(rows, u, targets, served, top, missing, now, t);
      ServeMissing(rows, u, targets, served, top, missing, now, c);
      assert t + 1 !in rows;
      DiffersAt(rows, now, t + 1, Mirror(u, c));
      more := missing + [c];
      assert t + 1 in after && t + 1 !in now;
    }
  }

  /** A linked row is fired by the second pass exactly when it does not stand for a target branch. */
  lemma ServedShape(rows: Rows, u: User, targets: set<int>, byCompany: map<Option<int>, int>, id: int)
    requires StandsFor(rows, u.id, byCompany) && IsLinked(rows, u.id, id)
    ensures rows[id].company in byCompany
    ensures byCompany[rows[id].company] == id <==> IsStanding(rows, u.id, id)
    ensures ServedRow(rows, u, targets, id).company == rows[id].company
    ensures ServedRow(rows, u, targets, id).portalUser == rows[id].portalUser
    ensures IsMirror(ServedRow(rows, u, targets, id)) <==> IsMirror(rows[id])
    ensures SyncedRow(rows, u, targets, id) ==
      if !IsMirror(rows[id]) || (InTargets(rows[id], targets) && IsStanding(rows, u.id, id))
      then ServedRow(rows, u, targets, id)
      else rows[id].(fired := 1)
    ensures IsStanding(rows, u.id, id) || !InTargets(rows[id], targets) || IsCrm(rows, u.id, id) ||
      ServedRow(rows, u, targets, id) == rows[id]
    ensures !InTargets(rows[id], targets) ==> ServedRow(rows, u, targets, id) == rows[id]
  {
    var best := byCompany[rows[id].company];
    assert SameCompany(rows, id, best);
    if IsStanding(rows, u.id, id) {
      OneStanding(rows, u.id, best, id);
    }
  }

  lemma MirrorsStay(rows: Rows, u: User, top: int, missing: seq<int>, now: Rows, id: int, r: Row)
    requires AddsMirrors(rows, u, top, missing, now) && IsMaxId(rows, top) && id in rows && id in now
    ensures AddsMirrors(rows, u, top, missing, now[id := r])
  {
    var after := now[id := r];
    forall i | 0 <= i < |missing| ensures IsNewMirror(u, top, missing, after, i) {
      assert IsNewMirror(u, top, missing, now, i);
    }
  }

  /** The rows of `seen` are through the second pass, the others only served. */
  ghost predicate HalfFired(was: Rows, u: User, targets: set<int>, top: int, missing: seq<int>, seen: seq<int>,
                            now: Rows) {
    && IsMaxId(was, top) && Ascending(missing) && (forall c :: c in missing <==> IsMissing(was, u, targets, c))
    && AddsMirrors(was, u, top, missing, now)
    && forall id | id in was ::
         id in now && now[id] == if id in seen then SyncedRow(was, u, targets, id) else ServedRow(was, u, targets, id)
  }

  /** The second pass fires the next linked row, or leaves it, as the sync rule says. */
  lemma FiresOne(was: Rows, u: User, targets: set<int>, top: int, missing: seq<int>, seen: seq<int>, now: Rows,
                 byCompany: map<Option<int>, int>, id: int)
    requires HalfFired(was, u, targets, top, missing, seen, now) && StandsFor(was, u.id, byCompany)
    requires IsLinked(was, u.id, id) && id !in seen
    ensures id in now && now[id].company in byCompany
    ensures if !IsCrm(now, u.id, id) && (!InTargets(now[id], targets) || byCompany[now[id].company] != id)
            then now[id] == was[id] && HalfFired(was, u, targets, top, missing, seen + [id],
                                                 now[id := now[id].(fired := 1)])
            else HalfFired(was, u, targets, top, missing, seen + [id], now)
  {
    ServedShape(was, u, targets, byCompany, id);
    hide StandsFor, IsStanding, SyncedRow, ServedRow, IsMissing;
    MirrorsStay(was, u, top, missing, now, id, now[id].(fired := 1));
  }

  lemma AllHalfFired(was: Rows, u: User, targets: set<int>, top: int, missing: seq<int>, linked: seq<int>, now: Rows)
    requires HalfFired(was, u, targets, top, missing, linked, now)
    requires forall id :: id in linked <==> IsLinked(was, u.id, id)
    ensures SyncedWith(was, u, targets, top, missing, now)
  {
    hide IsStanding, IsMissing;
  }

  function IsLinkedTo(rows: Rows, u: int): int -> bool {
    id => IsLinked(rows, u, id)
  }

  /** The user's rows. */
  method LinkedTo(rows: Rows, u: int) returns (linked: seq<int>)
    ensures (forall id :: id in linked <==> IsLinked(rows, u, id)) && Distinct(linked)
  {
    var keys := Elements(rows.Keys);
    linked := Filter(IsLinkedTo(rows, u), keys);
    FilterKeeps(IsLinkedTo(rows, u), keys);
    FilterDistinct(IsLinkedTo(rows, u), keys);
  }

  /** No live mirror is left to fire. */
  lemma AllFiredKeeps(rows: Rows, u: int)
    requires forall id | IsLinked(rows, u, id) && IsMirror(rows[id]) :: rows[id].fired == 1
    ensures AllFired(rows, u) == rows
  {
    assert forall id: int :: id in AllFired(rows, u) <==> id in rows;
    assert forall id: int | id in rows :: AllFired(rows, u)[id] == rows[id];
    MapExt(AllFired(rows, u), rows);
  }

  /** The actor can see the row at all. */
  predicate CanSee(rows: Rows, staff: int, scope: set<int>, service: string -> bool) {
    staff in rows && rows[staff].fired == 0 && IsLinkable(rows[staff])
    && InTargets(rows[staff], scope) && !service(rows[staff].name)
  }

  /**
   * Adding or rewriting one row that was still as it came leaves a difference exactly when that row is new or changed.
   */
  lemma DiffersAt(rows: Rows, now: Rows, id: int, r: Row)
    requires id in rows ==> id in now && now[id] == rows[id]
    requires id !in rows ==> id !in now
    ensures Differs(rows, now[id := r]) <==> Differs(rows, now) || id !in rows || r != rows[id]
  {
    var after := now[id := r];
    if Differs(rows, now) {
      var w :| w in now && (w !in rows || now[w] != rows[w]);
      assert w in after && (w !in rows || after[w] != rows[w]);
    }
    if id !in rows || r != rows[id] {
      assert id in after && (id !in rows || after[id] != rows[id]);
    }
    if Differs(rows, after) {
      var w :| w in after && (w !in rows || after[w] != rows[w]);
      assert w != id ==> w in now && (w !in rows || now[w] != rows[w]);
    }
  }

  lemma DiffersIsUnequal(rows: Rows, now: Rows)
    requires forall id | id in rows :: id in now
    ensures Differs(rows, now) <==> now != rows
  {
    if !Differs(rows, now) {
      assert forall id: int :: id in now <==> id in rows;
      assert forall id: int | id in now :: now[id] == rows[id];
      MapExt(now, rows);
    }
  }

  class Table {
    var rows: Rows

    ghost predicate Valid()
      reads this
    {
      forall id | id in rows :: 0 < id
    }

    /** `_assign`: set the fields, reporting whether anything changed. */
    method Assign(id: int, r: Row) returns (changed: bool)
      requires id in rows
      modifies this
      ensures rows == old(rows)[id := r] && changed == (old(rows)[id] != r)
    {
      changed := rows[id] != r;
      rows := rows[id := r];
    }

    /** One target branch: add a mirror, or bring its standing row up to date. */
    method ServeBranch(u: User, company: int, byCompany: map<Option<int>, int>) returns (changed: bool)
      requires Valid() && forall c | c in byCompany :: byCompany[c] in rows
      modifies this
      ensures Valid()
      ensures ServesBranch(old(rows), u, company, byCompany, rows)
      ensures changed <==> rows != old(rows)
    {
      if Some(company) !in byCompany {
        var top := MaxId(rows);
        rows := rows[top + 1 := Mirror(u, company)];
        changed := true;
        assert top + 1 !in old(rows) && top + 1 in rows;
      } else {
        var id := byCompany[Some(company)];
        var r := rows[id];
        changed := Assign(id, if IsCrm(rows, u.id, id) then r.(bookable := true) else Woken(u, r));
        assert changed ==> rows[id] != old(rows)[id];
      }
    }

    /** The branches in order: each gets its standing row served, or a mirror of its own. */
    method ServeBranches(u: User, targets: set<int>, byCompany: map<Option<int>, int>)
      returns (changed: bool, ghost top: int, ghost missing: seq<int>)
      requires Valid() && StandsFor(rows, u.id, byCompany)
      modifies this
      ensures Valid() && Served(old(rows), u, targets, targets, top, missing, rows)
      ensures changed <==> Differs(old(rows), rows)
    {
      ghost var was := rows;
      top := MaxId(rows);
      changed, missing := false, [];
      var rest := targets;
      ghost var served: set<int> := {};
      while rest != {}
        invariant forall c: int :: c in targets <==> c in served || c in rest
        invariant forall d, c | d in served && c in rest :: d < c
        invariant Valid() && Served(was, u, targets, served, top, missing, rows)
        invariant changed <==> Differs(was, rows)
      {
        hide *;
        var c := Least(rest);
        ghost var now := rows;
        ServedKeeps(was, u, targets, served, top, missing, now, byCompany);
        var step := ServeBranch(u, c, byCompany);
        missing := ServeOne(was, u, targets, served, top, missing, now, rows, byCompany, c);
        changed := changed || step;
        served, rest := served + {c}, rest - {c};
      }
      assert forall c: int :: c in served <==> c in targets;
      SetExt(served, targets);
    }

    /** The user's own mirrors that do not stand for a target branch are fired. */
    method FireRest(u: User, targets: set<int>, linked: seq<int>, byCompany: map<Option<int>, int>,
                    ghost was: Rows, ghost top: int, ghost missing: seq<int>, served: bool) returns (changed: bool)
      requires Valid() && Served(was, u, targets, targets, top, missing, rows) && StandsFor(was, u.id, byCompany)
      requires (forall id :: id in linked <==> IsLinked(was, u.id, id)) && Distinct(linked)
      requires served <==> Differs(was, rows)
      modifies this
      ensures Valid() && SyncedWith(was, u, targets, top, missing, rows)
      ensures changed <==> Differs(was, rows)
    {
      changed := served;
      assert HalfFired(was, u, targets, top, missing, linked[..0], rows);
      for i := 0 to |linked|
        invariant Valid() && HalfFired(was, u, targets, top, missing, linked[..i], rows)
        invariant changed <==> Differs(was, rows)
      {
        hide HalfFired, StandsFor, IsStanding;
        var id := linked[i];
        assert id in linked && id !in linked[..i] && linked[..i + 1] == linked[..i] + [id];
        FiresOne(was, u, targets, top, missing, linked[..i], rows, byCompany, id);
        if !IsCrm(rows, u.id, id) && (!InTargets(rows[id], targets) || byCompany[rows[id].company] != id) {
          DiffersAt(was, rows, id, rows[id].(fired := 1));
          var step := Assign(id, rows[id].(fired := 1));
          changed := changed || step;
        }
      }
      assert linked[..|linked|] == linked;
      AllHalfFired(was, u, targets, top, missing, linked, rows);
    }

    /** `sync_portal_user_staff`. */
    method Sync(u: User, targets: set<int>) returns (changed: bool)
      requires Valid()
      modifies this
      ensures Valid() && IsSynced(old(rows), u, targets, rows)
      ensures changed <==> rows != old(rows)
    {
      ghost var was := rows;
      var linked := LinkedTo(rows, u.id);
      if !IsActive(u, targets) {
        if exists id :: id in linked && rows[id].fired != 1 && !IsCrm(rows, u.id, id) {
          rows := AllFired(rows, u.id);
          return true;
        }
        AllFiredKeeps(rows, u.id);
        return false;
      }
      var byCompany := ChooseStanding(rows, u.id, linked);
      var served;
      ghost var top, missing;
      served, top, missing := ServeBranches(u, targets, byCompany);
      changed := FireRest(u, targets, linked, byCompany, was, top, missing, served);
      DiffersIsUnequal(was, rows);
    }

    /**
     * `link_staff`: `linkableRole` and `service` are the role and name checks, `movable` the mirrors whose facts can
     * be merged.
     */
    method Link(u: User, staff: int, branches: set<int>, scope: set<int>, linkableRole: bool, service: string -> bool,
                movable: set<int>)
      returns (r: Result<set<int>, LinkError>)
      requires Valid()
      modifies this
      ensures Valid()
      ensures r.Success? <==> (
        && linkableRole && CanClaim(old(rows), u.id, staff) && !service(old(rows)[staff].name)
        && InTargets(old(rows)[staff], branches * scope)
        && forall id | id in old(rows) && IsRetired(old(rows), u.id, staff, id) :: id in movable)
      ensures r.Success? ==> (
        && rows == Linked(old(rows), u.id, staff)
        && forall id :: id in r.value <==> id in old(rows) && IsRetired(old(rows), u.id, staff, id))
      ensures r.Failure? ==> rows == old(rows)
      ensures r.Failure? ==> (r.error == NotFound <==> linkableRole && !CanSee(old(rows), staff, scope, service))
      ensures r.Failure? ==> (r.error == Conflict
        <==> linkableRole && CanSee(old(rows), staff, scope, service) && InTargets(old(rows)[staff], branches))
    {
      if !linkableRole {
        return Failure(Refused);
      }
      if !CanSee(rows, staff, scope, service) {
        return Failure(NotFound);
      }
      if !InTargets(rows[staff], branches) {
        return Failure(Refused);
      }
      if rows[staff].portalUser.Some? || HasCrmAt(rows, u.id, rows[staff].company) {
        return Failure(Conflict);
      }
      var before := rows;
      rows := rows[staff := rows[staff].(portalUser := Some(u.id))];
      var mirrors := set id | id in rows && IsRetired(rows, u.id, staff, id);
      if exists id :: id in mirrors && id !in movable {
        rows := before;
        return Failure(Conflict);
      }
      rows := map id | id in rows :: if id in mirrors then rows[id].(fired := 1, portalUser := None) else rows[id];
      assert forall id: int | id in rows :: rows[id] == Linked(before, u.id, staff)[id];
      MapExt(rows, Linked(before, u.id, staff));
      r := Success(mirrors);
    }

    /** `unlink_staff`. */
    method Unlink(u: User, staff: int, branches: set<int>, scope: set<int>) returns (r: Result<int, LinkError>)
      requires Valid()
      modifies this
      ensures Valid()
      ensures r.Success? <==> IsCrm(old(rows), u.id, staff) && InTargets(old(rows)[staff], scope)
      ensures r.Success?
        ==> old(rows)[staff].company == Some(r.value) && StepTo(old(rows), UnlinkStaff(u, staff, branches), rows)
      ensures r.Failure? ==> r.error == NotFound && rows == old(rows)
    {
      if !IsCrm(rows, u.id, staff) || !InTargets(rows[staff], scope) {
        return Failure(NotFound);
      }
      var company := rows[staff].company.value;
      rows := rows[staff := rows[staff].(portalUser := None)];
      var _ := Sync(u, branches);
      r := Success(company);
    }

    /** `detach_portal_user_staff`: two updates, each over the rows its clause picks. */
    method Detach(u: int)
      requires Valid()
      modifies this
      ensures Valid() && rows == Detached(old(rows), u)
    {
      var before := rows;
      rows := AllFired(rows, u);
      rows := map id | id in rows :: if IsCrm(rows, u, id) then rows[id].(portalUser := None) else rows[id];
      assert forall id: int | id in rows :: rows[id] == Detached(before, u)[id];
      MapExt(rows, Detached(before, u));
    }
  }
}
