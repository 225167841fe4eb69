/** Whom each event goes to, told over the events, the schedule and the loads so far. */
module AttributionOutcome {
  import opened Wrappers
  import opened Sorting
  import opened Clock
  import opened Shifts
  import opened AdminAttribution

  // ---------------------------------------------------------------- who was on shift, who created it

  /** A slot of a listed person, no further than a day from the window, that holds the event. */
  predicate IsSlotOf(r: Roster, e: Event, s: Slot) {
    && s in r.slots && s.staff in r.staff && r.start <= s.day + 1 && s.day <= r.end + 1
    && match e.moment
       case None => s.day == e.date
       case Some(m) =>
         && s.from.Some? && s.to.Some? && s.day * DAY + s.from.value <= r.localMoment(m)
         && r.localMoment(m) < (if s.from.value < s.to.value then s.day else s.day + 1) * DAY + s.to.value
  }

  ghost predicate WasOnShift(r: Roster, e: Event, person: int) {
    exists s :: IsSlotOf(r, e, s) && s.staff == person
  }

  /** The last listed person with the CRM user that created the event. */
  ghost predicate IsCreator(r: Roster, e: Event, person: int) {
    && e.createdUser.Some? && person in r.staff
    && exists i :: IsLastOf(r, r.staffUsers, e.createdUser.value, person, i)
  }

  ghost predicate ValidSlots(r: Roster) {
    forall s | s in r.slots :: ValidSlot(s)
  }

  lemma ShiftsAre(r: Roster, e: Event, person: int)
    requires ValidSlots(r)
    ensures person in OnShift(r, e) <==> WasOnShift(r, e, person)
  {
    if person in OnShift(r, e) {
      var s :| s in r.slots && SlotQualifies(r, e, s) && s.staff == person;
      assert IsSlotOf(r, e, s);
    }
    if s :| IsSlotOf(r, e, s) && s.staff == person {
      if e.moment.Some? {
        CoveringDays(s, r.localMoment(e.moment.value));
      }
      assert SlotQualifies(r, e, s);
    }
  }

  predicate IsLastOf(r: Roster, users: seq<(int, Option<int>)>, user: int, person: int, i: int) {
    && 0 <= i < |users| && users[i] == (person, Some(user))
    && forall j | i < j < |users| :: users[j].0 in r.staff ==> users[j].1 != Some(user)
  }

  lemma {:induction false} LastOfUser(r: Roster, users: seq<(int, Option<int>)>, user: int)
    ensures var who := StaffOfUser(r, users, user);
      && (who.None? <==> forall i | 0 <= i < |users| :: users[i].0 in r.staff ==> users[i].1 != Some(user))
      && (who.Some? ==> exists i :: IsLastOf(r, users, user, who.value, i))
  {
    if users != [] {
      var n := |users| - 1;
      LastOfUser(r, users[..n], user);
      var who := StaffOfUser(r, users, user);
      if users[n].0 in r.staff && users[n].1 == Some(user) {
        assert IsLastOf(r, users, user, who.value, n);
      } else if who.Some? {
        var i :| IsLastOf(r, users[..n], user, who.value, i);
        assert IsLastOf(r, users, user, who.value, i);
      }
    }
  }

  lemma CreatorsAre(r: Roster, e: Event, person: int)
    ensures Creator(r, e) == Some(person) <==> IsCreator(r, e, person)
  {
    if e.createdUser.Some? {
      LastOfUser(r, r.staffUsers, e.createdUser.value);
    }
  }

  // ---------------------------------------------------------------- the choice

  /** Nobody of `among` had fewer events that day; of those with as few, nobody fewer in the window, or a smaller id. */
  ghost predicate IsLeastLoaded(r: Roster, es: seq<Event>, given: seq<int>, day: int, s: int, t: int)
    requires |given| <= |es|
  {
    var (sDay, tDay) := (DayLoad(r, es, given, day, s), DayLoad(r, es, given, day, t));
    var (sAll, tAll) := (WindowLoad(given, s), WindowLoad(given, t));
    sDay <= tDay && (sDay == tDay ==> sAll <= tAll) && (sDay == tDay && sAll == tAll ==> s <= t)
  }

  /** The day an event counts on. */
  function CountedOn(r: Roster, e: Event): int {
    match e.moment
    case None => e.date
    case Some(m) => r.localMoment(m) / DAY
  }

  ghost predicate NobodyOnShift(r: Roster, e: Event) {
    forall t :: !WasOnShift(r, e, t)
  }

  ghost predicate NoCreator(r: Roster, e: Event) {
    forall t :: !IsCreator(r, e, t)
  }

  /** Event `n` went to its creator on shift, else to the least loaded on shift, else to its creator, else of all. */
  ghost predicate IsDue(r: Roster, es: seq<Event>, given: seq<int>, n: nat)
    requires n < |given| <= |es|
  {
    var (e, s) := (es[n], given[n]);
    && (forall c | IsCreator(r, e, c) && (WasOnShift(r, e, c) || NobodyOnShift(r, e)) :: s == c)
    && (!NobodyOnShift(r, e) ==> WasOnShift(r, e, s))
    && (!NobodyOnShift(r, e) && !IsCreator(r, e, s) ==>
          forall t | WasOnShift(r, e, t) :: IsLeastLoaded(r, es, given[..n], CountedOn(r, e), s, t))
    && (NobodyOnShift(r, e) && NoCreator(r, e) ==>
          s in r.staff && forall t | t in r.staff :: HasFewest(given[..n], s, t))
  }

  ghost predicate HasFewest(given: seq<int>, s: int, t: int) {
    && WindowLoad(given, s) <= WindowLoad(given, t)
    && (WindowLoad(given, s) == WindowLoad(given, t) ==> s <= t)
  }

  lemma EachIsDue(r: Roster, es: seq<Event>, given: seq<int>, n: nat)
    requires IsAllocation(r, es, given) && ValidSlots(r) && n < |given|
    ensures IsDue(r, es, given, n)
  {
    var e := es[n];
    assert Rightful(r, es, given[..n], given[n]);
    forall t ensures t in OnShift(r, e) <==> WasOnShift(r, e, t) {
      ShiftsAre(r, e, t);
    }
    forall t ensures Creator(r, e) == Some(t) <==> IsCreator(r, e, t) {
      CreatorsAre(r, e, t);
    }
    hide OnShift, Creator, WasOnShift, IsCreator;
    assert NobodyOnShift(r, e) <==> OnShift(r, e) == {};
  }

  /** An event without a moment is taken as if it came at the beginning of time. */
  function TakenAt(e: Event): int {
    if e.moment.Some? then e.moment.value else DATE_MIN * DAY
  }

  /** Earlier day first, then earlier moment, then smaller id. */
  predicate ComesBefore(a: Event, b: Event) {
    || a.date < b.date
    || (a.date == b.date && TakenAt(a) < TakenAt(b))
    || (a.date == b.date && TakenAt(a) == TakenAt(b) && a.id < b.id)
  }

  /** The events one after another, and whom each was given to. */
  ghost predicate IsTaken(r: Roster, events: seq<Event>, m: map<int, int>, es: seq<Event>, given: seq<int>) {
    && multiset(es) == multiset(events) && |given| == |es|
    && (forall i, j | 0 <= i < j < |es| :: ComesBefore(es[i], es[j]))
    && (forall n | 0 <= n < |es| :: es[n].id in m && m[es[n].id] == given[n])
    && (forall n | 0 <= n < |given| :: IsDue(r, es, given, n))
  }

  lemma {:induction false} TabulatedAt(es: seq<Event>, given: seq<int>, n: nat)
    requires n < |given| <= |es| && DistinctIds(es)
    ensures es[n].id in Tabulate(es, given) && Tabulate(es, given)[es[n].id] == given[n]
  {
    if n < |given| - 1 {
      TabulatedAt(es, given[..|given| - 1], n);
    }
  }

  /** The dictionary gives every event, taken in order, to whom it is due. */
  lemma AssignedAsDue(r: Roster, events: seq<Event>, m: map<int, int>) returns (es: seq<Event>, given: seq<int>)
    requires IsAssignment(r, events, m) && DistinctIds(events) && ValidSlots(r)
    ensures IsTaken(r, events, m, es, given)
  {
    es := Sort(EventLe, events);
    given :| |given| == |events| && IsRecordedAs(r, es, given, m);
    SortPermutes(EventLe, events);
    StillDistinct(es, events);
    TakenInOrder(events);
    hide *;
    assert |given| == |es| && IsRecordedAs(r, es, given, m);
    forall n | 0 <= n < |es|
      ensures es[n].id in m && m[es[n].id] == given[n] && IsDue(r, es, given, n)
    {
      RecordedAsDue(r, es, given, m, n);
    }
    TakenAs(r, events, m, es, given);
  }

  lemma TakenAs(r: Roster, events: seq<Event>, m: map<int, int>, es: seq<Event>, given: seq<int>)
    requires multiset(es) == multiset(events) && |given| == |es|
    requires forall i, j | 0 <= i < j < |es| :: ComesBefore(es[i], es[j])
    requires forall n | 0 <= n < |es| :: es[n].id in m && m[es[n].id] == given[n] && IsDue(r, es, given, n)
    ensures IsTaken(r, events, m, es, given)
  {
    hide ComesBefore, IsDue;
  }

  lemma RecordedAsDue(r: Roster, es: seq<Event>, given: seq<int>, m: map<int, int>, n: nat)
    requires IsRecordedAs(r, es, given, m) && ValidSlots(r) && DistinctIds(es) && n < |given|
    ensures n < |es| && es[n].id in m && m[es[n].id] == given[n] && IsDue(r, es, given, n)
  {
    TabulatedAt(es, given, n);
    EachIsDue(r, es, given, n);
  }

  lemma TakenInOrder(events: seq<Event>)
    requires DistinctIds(events)
    ensures var es := Sort(EventLe, events); forall i, j | 0 <= i < j < |es| :: ComesBefore(es[i], es[j])
  {
    var es := Sort(EventLe, events);
    EventOrder();
    SortSorts(EventLe, events);
    SortPermutes(EventLe, events);
    StillDistinct(es, events);
  }

  lemma StillDistinct(es: seq<Event>, events: seq<Event>)
    requires multiset(es) == multiset(events) && DistinctIds(events)
    ensures DistinctIds(es)
  {
    forall i, j | 0 <= i < j < |es| ensures es[i].id != es[j].id {
      SameElements(es, events);
      assert es[i] in events && es[j] in events;
      if es[i] == es[j] {
        assert es == es[..i] + [es[i]] + es[i + 1..j] + [es[j]] + es[j + 1..];
        assert multiset(es)[es[i]] >= 2;
        OnlyOnce(events, es[i]);
      }
    }
  }

  lemma {:induction false} OnlyOnce(events: seq<Event>, e: Event)
    requires DistinctIds(events)
    ensures multiset(events)[e] <= 1
  {
    if events != [] {
      var n := |events| - 1;
      OnlyOnce(events[..n], e);
      assert events == events[..n] + [events[n]];
      if events[n] == e {
        assert e !in events[..n];
      }
    }
  }

  /** With nobody scheduled and no listed creators, events are spread evenly over everybody, after every event. */
  lemma {:induction false} UnscheduledIsEven(r: Roster, es: seq<Event>, given: seq<int>, a: int, b: int)
    requires IsAllocation(r, es, given) && ValidSlots(r) && a in r.staff && b in r.staff
    requires forall e | e in es :: NobodyOnShift(r, e) && NoCreator(r, e)
    ensures WindowLoad(given, a) <= WindowLoad(given, b) + 1
  {
    if given != [] {
      var n := |given| - 1;
      AllocationPrefix(r, es, given, n);
      UnscheduledIsEven(r, es, given[..n], a, b);
      EachIsDue(r, es, given, n);
      assert es[n] in es && HasFewest(given[..n], given[n], b);
    }
  }
}
