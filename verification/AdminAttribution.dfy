/** Which administrator each event belongs to: the greedy allocator of `_admin_event_assignments`. */
module AdminAttribution {
  import opened Wrappers
  import opened Sorting
  import opened Clock
  import opened Shifts

  datatype Event = Event(id: int, date: int, moment: Option<int>, createdUser: Option<int>)

  /** `localMoment` is the branch's wall clock; `staffUsers` lists each person's CRM user in dictionary order. */
  datatype Roster = Roster(
    staff: set<int>, staffUsers: seq<(int, Option<int>)>, slots: seq<Slot>, start: int, end: int,
    localMoment: int -> int)

  // ---------------------------------------------------------------- what is known of one event

  function LocalDate(r: Roster, e: Event): int {
    if e.moment.Some? then DayOf(r.localMoment(e.moment.value)) else e.date
  }

  /** The schedule rows read for the window: the listed staff, one day around it. */
  predicate IsFetched(r: Roster, s: Slot) {
    s.staff in r.staff && r.start - 1 <= s.day <= r.end + 1
  }

  /** Without a moment anyone scheduled that day qualifies; with one, the slot must cover it. */
  predicate SlotQualifies(r: Roster, e: Event, s: Slot) {
    && IsFetched(r, s)
    && if e.moment.None? then s.day == LocalDate(r, e)
       else (s.day == LocalDate(r, e) || s.day == LocalDate(r, e) - 1) && CoversMoment(s, r.localMoment(e.moment.value))
  }

  function OnShift(r: Roster, e: Event): (shift: set<int>)
    ensures shift <= r.staff
  {
    set s | s in r.slots && SlotQualifies(r, e, s) :: s.staff
  }

  /** The listed person behind a CRM user; the last one in dictionary order when several share it. */
  function StaffOfUser(r: Roster, users: seq<(int, Option<int>)>, user: int): (who: Option<int>)
    ensures who.Some? ==> who.value in r.staff
  {
    if users == [] then None
    else
      var (staff, u) := users[|users| - 1];
      if staff in r.staff && u == Some(user) then Some(staff) else StaffOfUser(r, users[..|users| - 1], user)
  }

  function Creator(r: Roster, e: Event): (who: Option<int>)
    ensures who.Some? ==> who.value in r.staff
  {
    if e.createdUser.None? then None else StaffOfUser(r, r.staffUsers, e.createdUser.value)
  }

  predicate CreatorOnShift(r: Roster, e: Event) {
    Creator(r, e).Some? && Creator(r, e).value in OnShift(r, e)
  }

  predicate EventLe(a: Event, b: Event) {
    var (am, bm) := (a.moment.GetOr(DAY), b.moment.GetOr(DAY));
    a.date < b.date || (a.date == b.date && (am < bm || (am == bm && a.id <= b.id)))
  }

  // ---------------------------------------------------------------- the rule

  /** How many of the first events were given to `s`. */
  ghost function WindowLoad(given: seq<int>, s: int): nat {
    if given == [] then 0
    else WindowLoad(given[..|given| - 1], s) + if given[|given| - 1] == s then 1 else 0
  }

  /** How many of them fell on local day `day`. */
  ghost function DayLoad(r: Roster, es: seq<Event>, given: seq<int>, day: int, s: int): nat
    requires |given| <= |es|
  {
    if given == [] then 0
    else
      var n := |given| - 1;
      DayLoad(r, es, given[..n], day, s) + if given[n] == s && LocalDate(r, es[n]) == day then 1 else 0
  }

  /** `a` comes before `b` in (day load, window load, id). */
  predicate LoadLe(aDay: nat, aWindow: nat, a: int, bDay: nat, bWindow: nat, b: int) {
    aDay < bDay || (aDay == bDay && (aWindow < bWindow || (aWindow == bWindow && a <= b)))
  }

  /** `s` is who event `es[|given|]` belongs to, after the earlier ones were given as recorded. */
  ghost predicate Rightful(r: Roster, es: seq<Event>, given: seq<int>, s: int)
    requires |given| < |es|
  {
    var e := es[|given|];
    var day := LocalDate(r, e);
    var shift := OnShift(r, e);
    if CreatorOnShift(r, e) then s == Creator(r, e).value
    else if shift != {} then
      s in shift && forall t | t in shift ::
        LoadLe(DayLoad(r, es, given, day, s), WindowLoad(given, s), s,
               DayLoad(r, es, given, day, t), WindowLoad(given, t), t)
    else if Creator(r, e).Some? then s == Creator(r, e).value
    else s in r.staff && forall t | t in r.staff :: LoadLe(0, WindowLoad(given, s), s, 0, WindowLoad(given, t), t)
  }

  ghost predicate IsAllocation(r: Roster, es: seq<Event>, given: seq<int>) {
    |given| <= |es| && forall i | 0 <= i < |given| :: Rightful(r, es, given[..i], given[i])
  }

  /** The dictionary the allocator fills, event by event. */
  ghost function Tabulate(es: seq<Event>, given: seq<int>): map<int, int>
    requires |given| <= |es|
  {
    if given == [] then map[]
    else Tabulate(es, given[..|given| - 1])[es[|given| - 1].id := given[|given| - 1]]
  }

  /** The dictionary belongs to an allocation of the events taken in (date, moment, id) order. */
  ghost predicate IsAssignment(r: Roster, events: seq<Event>, assignments: map<int, int>) {
    exists given :: |given| == |events| && IsRecordedAs(r, Sort(EventLe, events), given, assignments)
  }

  ghost predicate IsRecordedAs(r: Roster, es: seq<Event>, given: seq<int>, assignments: map<int, int>) {
    IsAllocation(r, es, given) && assignments == Tabulate(es, given)
  }

  // ---------------------------------------------------------------- the allocator

  predicate KeyLe(dayCounts: map<int, map<int, nat>>, day: Option<int>, counts: map<int, nat>, a: int, b: int)
    requires a in counts && b in counts
  {
    var aDay := if day.Some? then CountOn(dayCounts, day.value, a) else 0;
    var bDay := if day.Some? then CountOn(dayCounts, day.value, b) else 0;
    LoadLe(aDay, counts[a], a, bDay, counts[b], b)
  }

  /** The least loaded candidate: by the day's load first when `day` is given, then by the window's, then by id. */
  method LeastLoaded(candidates: set<int>, dayCounts: map<int, map<int, nat>>, day: Option<int>, counts: map<int, nat>)
    returns (best: int)
    requires candidates != {} && candidates <= counts.Keys
    ensures best in candidates
    ensures forall t | t in candidates :: KeyLe(dayCounts, day, counts, best, t)
  {
    var order := Elements(candidates);
    assert Any(candidates) in order;
    best := order[0];
    assert best in order;
    for i := 1 to |order|
      invariant best in candidates
      invariant forall j | 0 <= j < i :: order[j] in candidates && KeyLe(dayCounts, day, counts, best, order[j])
    {
      assert order[i] in order;
      if !KeyLe(dayCounts, day, counts, best, order[i]) {
        best := order[i];
      }
    }
    forall t | t in candidates ensures KeyLe(dayCounts, day, counts, best, t) {
      assert t in order;
    }
  }

  ghost predicate CountsMatch(r: Roster, given: seq<int>, counts: map<int, nat>) {
    counts.Keys == r.staff && forall s | s in r.staff :: counts[s] == WindowLoad(given, s)
  }

  ghost predicate DayCountsMatch(r: Roster, es: seq<Event>, given: seq<int>, dayCounts: map<int, map<int, nat>>)
    requires |given| <= |es|
  {
    forall d, s :: DayLoad(r, es, given, d, s) == CountOn(dayCounts, d, s)
  }

  /** `day_counts.get(day, {}).get(s, 0)`. */
  function CountOn(dayCounts: map<int, map<int, nat>>, day: int, s: int): nat {
    if day in dayCounts && s in dayCounts[day] then dayCounts[day][s] else 0
  }

  function Bumped(dayCounts: map<int, map<int, nat>>, day: int, s: int): map<int, map<int, nat>> {
    var today := if day in dayCounts then dayCounts[day] else map[];
    dayCounts[day := today[s := CountOn(dayCounts, day, s) + 1]]
  }

  method Choose(r: Roster, ghost es: seq<Event>, ghost given: seq<int>, e: Event, counts: map<int, nat>,
                dayCounts: map<int, map<int, nat>>)
    returns (chosen: int)
    requires r.staff != {} && |given| < |es| && es[|given|] == e
    requires CountsMatch(r, given, counts) && DayCountsMatch(r, es, given, dayCounts)
    ensures Rightful(r, es, given, chosen) && chosen in r.staff
  {
    var day := LocalDate(r, e);
    var shift := OnShift(r, e);
    var creator := Creator(r, e);
    if creator.Some? && creator.value in shift {
      chosen := creator.value;
    } else if shift != {} {
      chosen := LeastLoaded(shift, dayCounts, Some(day), counts);
    } else if creator.Some? {
      chosen := creator.value;
    } else {
      chosen := LeastLoaded(r.staff, dayCounts, None, counts);
    }
  }

  method Assign(r: Roster, events: seq<Event>) returns (assignments: map<int, int>)
    ensures r.staff == {} ==> assignments == map[]
    ensures r.staff != {} ==> IsAssignment(r, events, assignments)
  {
    assignments := map[];
    if r.staff == {} || events == [] {
      assert r.staff != {} ==> IsRecordedAs(r, Sort(EventLe, events), [], assignments);
      return;
    }
    var es := Sort(EventLe, events);
    SortPermutes(EventLe, events);
    var counts: map<int, nat> := map s | s in r.staff :: 0;
    var dayCounts: map<int, map<int, nat>> := map[];
    ghost var given: seq<int> := [];
    for i := 0 to |es|
      invariant |given| == i && IsAllocation(r, es, given) && assignments == Tabulate(es, given)
      invariant CountsMatch(r, given, counts) && DayCountsMatch(r, es, given, dayCounts)
    {
      var e := es[i];
      var chosen := Choose(r, es, given, e, counts, dayCounts);
      Recorded(r, es, given, chosen, counts, dayCounts);
      AllocationExtends(r, es, given, chosen);
      counts := counts[chosen := counts[chosen] + 1];
      dayCounts := Bumped(dayCounts, LocalDate(r, e), chosen);
      assignments := assignments[e.id := chosen];
      given := given + [chosen];
    }
    assert IsRecordedAs(r, Sort(EventLe, events), given, assignments);
  }

  lemma AllocationExtends(r: Roster, es: seq<Event>, given: seq<int>, s: int)
    requires IsAllocation(r, es, given) && |given| < |es| && Rightful(r, es, given, s)
    ensures IsAllocation(r, es, given + [s])
    ensures Tabulate(es, given + [s]) == Tabulate(es, given)[es[|given|].id := s]
  {
    var g := given + [s];
    assert g[..|given|] == given;
    forall i | 0 <= i < |g| ensures Rightful(r, es, g[..i], g[i]) {
      assert g[..i] == given[..i];
    }
  }

  lemma Recorded(r: Roster, es: seq<Event>, given: seq<int>, s: int, counts: map<int, nat>,
                 dayCounts: map<int, map<int, nat>>)
    requires |given| < |es| && s in r.staff
    requires CountsMatch(r, given, counts) && DayCountsMatch(r, es, given, dayCounts)
    ensures CountsMatch(r, given + [s], counts[s := counts[s] + 1])
    ensures DayCountsMatch(r, es, given + [s], Bumped(dayCounts, LocalDate(r, es[|given|]), s))
  {
    assert (given + [s])[..|given|] == given;
    var day := LocalDate(r, es[|given|]);
    forall d, t ensures DayLoad(r, es, given + [s], d, t) == CountOn(Bumped(dayCounts, day, s), d, t) {
      assert DayLoad(r, es, given, d, t) == CountOn(dayCounts, d, t);
    }
  }

  // ---------------------------------------------------------------- what the allocation guarantees

  ghost predicate DistinctIds(events: seq<Event>) {
    forall i, j | 0 <= i < j < |events| :: events[i].id != events[j].id
  }

  lemma {:induction false} AllocationUnique(r: Roster, es: seq<Event>, a: seq<int>, b: seq<int>)
    requires |a| == |b| && IsAllocation(r, es, a) && IsAllocation(r, es, b)
    ensures a == b
  {
    if a == [] {
    } else {
      var n := |a| - 1;
      AllocationPrefix(r, es, a, n);
      AllocationPrefix(r, es, b, n);
      AllocationUnique(r, es, a[..n], b[..n]);
      assert Rightful(r, es, a[..n], a[n]) && Rightful(r, es, a[..n], b[n]);
      assert a == a[..n] + [a[n]] && b == b[..n] + [b[n]];
    }
  }

  lemma AllocationPrefix(r: Roster, es: seq<Event>, given: seq<int>, n: nat)
    requires IsAllocation(r, es, given) && n <= |given|
    ensures IsAllocation(r, es, given[..n])
  {
    forall i | 0 <= i < n ensures Rightful(r, es, given[..n][..i], given[..n][i]) {
      assert given[..n][..i] == given[..i];
    }
  }

  lemma EventOrder()
    ensures TotalOrder(EventLe)
  {
  }

  /** The same events in another order are attributed the same way. */
  lemma AssignmentIgnoresInputOrder(r: Roster, a: seq<Event>, b: seq<Event>, ma: map<int, int>, mb: map<int, int>)
    requires multiset(a) == multiset(b) && DistinctIds(a)
    requires IsAssignment(r, a, ma) && IsAssignment(r, b, mb)
    ensures ma == mb
  {
    EventOrder();
    SameElements(a, b);
    SortIgnoresInputOrder(EventLe, a, b);
    var es := Sort(EventLe, a);
    var ga :| |ga| == |a| && IsRecordedAs(r, es, ga, ma);
    var gb :| |gb| == |b| && IsRecordedAs(r, es, gb, mb);
    AllocationUnique(r, es, ga, gb);
  }

  lemma {:induction false} AllocationListed(r: Roster, es: seq<Event>, given: seq<int>)
    requires IsAllocation(r, es, given)
    ensures forall i | 0 <= i < |given| :: given[i] in r.staff
    ensures forall x :: x in Tabulate(es, given) <==> exists i :: 0 <= i < |given| && es[i].id == x
    ensures forall x | x in Tabulate(es, given) :: Tabulate(es, given)[x] in r.staff
  {
    if given == [] {
    } else {
      var n := |given| - 1;
      AllocationPrefix(r, es, given, n);
      AllocationListed(r, es, given[..n]);
      assert Rightful(r, es, given[..n], given[n]);
      forall i | 0 <= i < |given| ensures given[i] in r.staff {
        if i < n {
          assert given[..n][i] == given[i];
        }
      }
    }
  }

  /** Exactly the events' ids are attributed, each to a listed administrator. */
  lemma AssignmentTotal(r: Roster, events: seq<Event>, m: map<int, int>)
    requires IsAssignment(r, events, m)
    ensures forall x :: x in m <==> exists e :: e in events && e.id == x
    ensures forall x | x in m :: m[x] in r.staff
  {
    var es := Sort(EventLe, events);
    var given :| |given| == |events| && IsRecordedAs(r, es, given, m);
    AllocationListed(r, es, given);
    SortPermutes(EventLe, events);
    forall x ensures x in m <==> exists e :: e in events && e.id == x {
      if x in m {
        var i :| 0 <= i < |given| && es[i].id == x;
        assert es[i] in es;
      }
      if e :| e in events && e.id == x {
        var i :| 0 <= i < |es| && es[i] == e;
        assert es[i].id == x;
      }
    }
  }

  ghost function ShareOf(m: map<int, int>, s: int): set<int> {
    set x | x in m && m[x] == s
  }

  ghost function SharesOf(m: map<int, int>, staff: set<int>): nat {
    if staff == {} then 0 else var s := Any(staff); |ShareOf(m, s)| + SharesOf(m, staff - {s})
  }

  lemma {:induction false} SharesCount(m: map<int, int>, staff: set<int>)
    ensures SharesOf(m, staff) == |set x | x in m && m[x] in staff|
  {
    if staff == {} {
      assert (set x | x in m && m[x] in staff) == {};
    } else {
      var s := Any(staff);
      SharesCount(m, staff - {s});
      var mine, rest := ShareOf(m, s), set x | x in m && m[x] in staff - {s};
      assert mine !! rest;
      assert (set x | x in m && m[x] in staff) == mine + rest;
    }
  }

  lemma {:induction false} DistinctIdsCount(events: seq<Event>)
    requires DistinctIds(events)
    ensures |set e | e in events :: e.id| == |events|
  {
    if events == [] {
      assert (set e | e in events :: e.id) == {};
    } else {
      var n := |events| - 1;
      var rest := events[..n];
      DistinctIdsCount(rest);
      var ids := set e | e in rest :: e.id;
      assert events == rest + [events[n]];
      assert (set e | e in events :: e.id) == ids + {events[n].id};
      assert events[n].id !in ids;
    }
  }

  /** The administrators' shares add up to the events. */
  lemma SharesAddUp(r: Roster, events: seq<Event>, m: map<int, int>)
    requires IsAssignment(r, events, m) && DistinctIds(events)
    ensures SharesOf(m, r.staff) == |events|
  {
    AssignmentTotal(r, events, m);
    SharesCount(m, r.staff);
    DistinctIdsCount(events);
    var given, ids := set x | x in m && m[x] in r.staff, set e | e in events :: e.id;
    forall x ensures x in given <==> x in ids {
      assert x in ids <==> exists e :: e in events && e.id == x;
    }
    assert given == ids;
  }

  /** Every event of the day has the same people on shift and was created by none of them. */
  ghost predicate SharedDay(r: Roster, es: seq<Event>, day: int, shift: set<int>) {
    forall i | 0 <= i < |es| && LocalDate(r, es[i]) == day :: OnShift(r, es[i]) == shift && !CreatorOnShift(r, es[i])
  }

  /** Such a day is split evenly: after every event, the loads of the people on shift differ by at most one. */
  lemma {:induction false} SharedDayIsEven(r: Roster, es: seq<Event>, given: seq<int>, day: int, shift: set<int>)
    requires IsAllocation(r, es, given) && SharedDay(r, es, day, shift) && shift != {}
    ensures forall a, b | a in shift && b in shift :: DayLoad(r, es, given, day, a) <= DayLoad(r, es, given, day, b) + 1
    ensures forall s | s !in shift :: DayLoad(r, es, given, day, s) == 0
  {
    if given == [] {
    } else {
      var n := |given| - 1;
      AllocationPrefix(r, es, given, n);
      SharedDayIsEven(r, es, given[..n], day, shift);
      assert Rightful(r, es, given[..n], given[n]);
    }
  }
}
