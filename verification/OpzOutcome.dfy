/** Rebooking events told over the appointment rows alone: which rows make an event, and what it reports of each. */
module OpzOutcome {
  import opened Wrappers
  import opened Sorting
  import opened Clock
  import opened Opz

  /** A completed visit on a day the branch reports, known by the "as of" moment. */
  predicate IsReportedVisit(sc: Scope, v: Appointment) {
    && v.completed && v.company == sc.company && v.date.Some?
    && (sc.window.start.Some? ==> sc.window.start.value <= v.date.value)
    && (sc.window.end.Some? ==> v.date.value <= sc.window.end.value)
    && (sc.factualAt.Some? && v.moment.Some? ==> v.moment.value <= sc.factualAt.value.moment)
    && (sc.factualAt.Some? && v.moment.None? ==> v.date.value <= sc.factualAt.value.day)
  }

  function VisitMoment(v: Appointment): int
    requires v.date.Some?
  {
    if v.moment.Some? then v.moment.value else v.date.value * DAY
  }

  predicate IsLaterVisit(v: Appointment, w: Appointment)
    requires v.date.Some? && w.date.Some?
  {
    || w.date.value < v.date.value
    || (w.date == v.date && VisitMoment(w) < VisitMoment(v))
    || (w.date == v.date && VisitMoment(w) == VisitMoment(v) && w.id < v.id)
  }

  predicate IsLaterBooking(c: Appointment, b: Appointment)
    requires c.created.Some? && b.created.Some?
  {
    b.created.value < c.created.value || (b.created == c.created && b.id < c.id)
  }

  /**
   * Booking `c` was made on the day of visit `v` or the day after, for a later day, and `v` is the client's latest
   * visit up to then.
   */
  ghost predicate IsRebooking(sc: Scope, table: seq<Appointment>, c: Appointment, v: Appointment) {
    && c in table && v in table
    && c.company == sc.company && c.client.Some? && c.date.Some? && c.created.Some?
    && (sc.factualAt.Some? ==> c.created.value <= sc.factualAt.value.moment)
    && IsReportedVisit(sc, v) && v.client == c.client && v.date.value < c.date.value
    && sc.zone.localDay(c.created.value) - 1 <= v.date.value <= sc.zone.localDay(c.created.value)
    && forall w | w in table && w != v && IsReportedVisit(sc, w) && w.client == c.client ::
         w.date.value <= sc.zone.localDay(c.created.value) ==> IsLaterVisit(v, w)
  }

  /** No earlier booking rebooked the visit. */
  ghost predicate IsFirstRebooking(sc: Scope, table: seq<Appointment>, c: Appointment, v: Appointment) {
    && IsRebooking(sc, table, c, v)
    && forall b | b in table && b != c && IsRebooking(sc, table, b, v) :: IsLaterBooking(b, c)
  }

  /** On no earlier day had the client a visit that counts as history. */
  ghost predicate HadNoEarlierVisit(sc: Scope, table: seq<Appointment>, client: Option<int>, day: int) {
    forall w | w in table && w.client == client && w.client.Some? && w.date.Some? && w.date.value < day ::
      || w.company != sc.company || !w.completed || !w.business
      || (sc.window.start.Some? && w.date.value < sc.window.start.value)
      || (sc.window.end.Some? && sc.window.end.value < w.date.value)
  }

  /** What the event reports: the booking's id, client, days and creator, and the visit's day and barber. */
  ghost predicate Reports(sc: Scope, table: seq<Appointment>, e: OpzEvent, c: Appointment, v: Appointment)
    requires c.created.Some? && c.date.Some? && v.date.Some?
  {
    && e.eventId == c.id && e.company == c.company && e.client == c.client && e.createdUser == c.createdUser
    && e.createDate == c.created.value && e.eventDate == sc.zone.localDay(c.created.value)
    && e.appointmentDate == c.date.value
    && e.lastVisitDate == v.date.value && e.barberStaff == v.staff
    && (e.firstVisit <==> HadNoEarlierVisit(sc, table, c.client, v.date.value))
  }

  ghost predicate IsReportOf(sc: Scope, table: seq<Appointment>, start: int, end: int, e: OpzEvent, c: Appointment,
                             v: Appointment) {
    && IsFirstRebooking(sc, table, c, v) && start <= sc.zone.localDay(c.created.value) <= end
    && Reports(sc, table, e, c, v)
  }

  ghost predicate IsReport(sc: Scope, table: seq<Appointment>, start: int, end: int, e: OpzEvent) {
    exists c, v :: IsReportOf(sc, table, start, end, e, c, v)
  }

  /** Exactly the first rebookings made in [start, end], each once, in order of creation. */
  ghost predicate AreRebookings(sc: Scope, table: seq<Appointment>, start: int, end: int, events: seq<OpzEvent>) {
    && (forall i | 0 <= i < |events| :: IsReport(sc, table, start, end, events[i]))
    && (forall c, v | IsFirstRebooking(sc, table, c, v) && start <= sc.zone.localDay(c.created.value) <= end ::
          exists i :: 0 <= i < |events| && Reports(sc, table, events[i], c, v))
    && (forall i, j | 0 <= i < j < |events| ::
          events[i].createDate < events[j].createDate
          || (events[i].createDate == events[j].createDate && events[i].eventId < events[j].eventId))
  }

  // ---------------------------------------------------------------- the rule says the same

  lemma AnchorsAre(sc: Scope, table: seq<Appointment>, c: Appointment, v: Appointment)
    requires UniqueIds(table) && c in table
    ensures Rebooks(sc, table, c, v) <==> IsRebooking(sc, table, c, v)
  {
    assert forall w :: IsVisit(sc, w) <==> IsReportedVisit(sc, w);
    if Rebooks(sc, table, c, v) {
      forall w | w in table && w != v && IsReportedVisit(sc, w) && w.client == c.client
        && w.date.value <= sc.zone.localDay(c.created.value)
        ensures IsLaterVisit(v, w)
      {
        assert VisitLe(w, v);
        DifferentIds(table, v, w);
      }
    }
  }

  lemma DifferentIds(table: seq<Appointment>, a: Appointment, b: Appointment)
    requires UniqueIds(table) && a in table && b in table && a != b
    ensures a.id != b.id
  {
  }

  lemma FirstAre(sc: Scope, table: seq<Appointment>, c: Appointment, v: Appointment)
    requires UniqueIds(table) && c in table
    ensures FirstToRebook(sc, table, c, v) <==> IsFirstRebooking(sc, table, c, v)
  {
    forall b | b in table ensures Rebooks(sc, table, b, v) <==> IsRebooking(sc, table, b, v) {
      AnchorsAre(sc, table, b, v);
    }
    forall b | b in table && b != c && b.created.Some? && c.created.Some?
      ensures BookingLe(c, b) <==> IsLaterBooking(b, c)
    {
      DifferentIds(table, b, c);
    }
    hide Rebooks, IsRebooking;
  }

  /** The event of a booking reports its own row and its anchor's. */
  lemma EventReports(sc: Scope, table: seq<Appointment>, c: Appointment, v: Appointment)
    requires UniqueIds(table) && FirstToRebook(sc, table, c, v)
    ensures Reports(sc, table, EventOf(sc, table, c), c, v)
  {
    forall w | FirstToRebook(sc, table, c, w) ensures w == v {
      AnchorUnique(sc, table, c, v, w);
    }
    assert HadNoEarlierVisit(sc, table, c.client, v.date.value) <==> IsFirstVisit(sc, table, c.client, v.date.value);
  }

  /** Bookings picked from the sorted table are in order and none comes twice. */
  lemma PickedInOrder(test: Appointment -> bool, table: seq<Appointment>, picked: seq<Appointment>)
    requires UniqueIds(table) && picked == Filter(test, Sort(BookingLe, table))
    ensures forall c :: c in picked <==> c in table && test(c)
    ensures forall i, j | 0 <= i < j < |picked| && picked[i].created.Some? && picked[j].created.Some? ::
      IsLaterBooking(picked[j], picked[i])
  {
    OrdersAreTotal();
    FilterSort(test, BookingLe, table);
    SortSorts(BookingLe, Filter(test, table));
    SortPermutes(BookingLe, Filter(test, table));
    FilterKeeps(test, table);
    FilterDistinct(test, table);
    SortDistinct(BookingLe, Filter(test, table));
    forall i, j | 0 <= i < j < |picked| ensures picked[i].id != picked[j].id && BookingLe(picked[i], picked[j]) {
      assert picked[i] in picked && picked[j] in picked;
      DifferentIds(table, picked[i], picked[j]);
    }
  }

  /** The events of the bookings picked, one by one. */
  lemma PickedAre(sc: Scope, table: seq<Appointment>, start: int, end: int, made: seq<Appointment>)
    requires UniqueIds(table) && made == Filter(EventTest(sc, table, start, end), Sort(BookingLe, table))
    ensures |RuleEvents(sc, table, start, end)| == |made|
    ensures forall i | 0 <= i < |made| ::
      IsEventIn(sc, table, start, end, made[i]) && RuleEvents(sc, table, start, end)[i] == EventOf(sc, table, made[i])
  {
    hide IsEvent;
    PickedInOrder(EventTest(sc, table, start, end), table, made);
    forall i | 0 <= i < |made| ensures IsEventIn(sc, table, start, end, made[i]) {
      assert made[i] in made;
    }
  }

  /** One booking's event is the report of that booking and the one visit it rebooks first. */
  lemma PickedReports(sc: Scope, table: seq<Appointment>, start: int, end: int, c: Appointment)
    requires UniqueIds(table) && c in table && IsEventIn(sc, table, start, end, c)
    ensures IsReport(sc, table, start, end, EventOf(sc, table, c))
    ensures forall v | IsFirstRebooking(sc, table, c, v) :: Reports(sc, table, EventOf(sc, table, c), c, v)
    ensures EventOf(sc, table, c).eventId == c.id && c.created == Some(EventOf(sc, table, c).createDate)
  {
    forall v ensures FirstToRebook(sc, table, c, v) <==> IsFirstRebooking(sc, table, c, v) {
      FirstAre(sc, table, c, v);
    }
    forall v | FirstToRebook(sc, table, c, v) ensures Reports(sc, table, EventOf(sc, table, c), c, v) {
      EventReports(sc, table, c, v);
    }
    var v :| FirstToRebook(sc, table, c, v);
    hide FirstToRebook;
    assert IsReportOf(sc, table, start, end, EventOf(sc, table, c), c, v);
  }

  lemma RebookingPicked(sc: Scope, table: seq<Appointment>, start: int, end: int, c: Appointment, v: Appointment)
    requires UniqueIds(table) && IsFirstRebooking(sc, table, c, v)
    requires start <= sc.zone.localDay(c.created.value) <= end
    ensures c in table && IsEventIn(sc, table, start, end, c)
  {
    FirstAre(sc, table, c, v);
  }

  /** One report per booking picked makes the list of first rebookings. */
  lemma ReportsAreRebookings(sc: Scope, table: seq<Appointment>, start: int, end: int, made: seq<Appointment>,
                             events: seq<OpzEvent>)
    requires |events| == |made|
    requires forall i | 0 <= i < |made| ::
      && made[i].created.Some? && events[i].createDate == made[i].created.value && events[i].eventId == made[i].id
      && IsReport(sc, table, start, end, events[i])
    requires forall i, v | 0 <= i < |made| && IsFirstRebooking(sc, table, made[i], v) ::
      Reports(sc, table, events[i], made[i], v)
    requires forall c, v | IsFirstRebooking(sc, table, c, v) && start <= sc.zone.localDay(c.created.value) <= end ::
      c in made
    requires forall i, j | 0 <= i < j < |made| :: IsLaterBooking(made[j], made[i])
    ensures AreRebookings(sc, table, start, end, events)
  {
    forall c, v | IsFirstRebooking(sc, table, c, v) && start <= sc.zone.localDay(c.created.value) <= end
      ensures exists i :: 0 <= i < |events| && Reports(sc, table, events[i], c, v)
    {
      var i :| 0 <= i < |made| && made[i] == c;
      assert Reports(sc, table, events[i], made[i], v);
    }
    forall i, j | 0 <= i < j < |events|
      ensures events[i].createDate < events[j].createDate
        || (events[i].createDate == events[j].createDate && events[i].eventId < events[j].eventId)
    {
      assert IsLaterBooking(made[j], made[i]);
    }
  }

  /** The rule's events are exactly the first rebookings made in the window, each once, in order of creation. */
  lemma EventsAreRebookings(sc: Scope, table: seq<Appointment>, start: int, end: int)
    requires UniqueIds(table)
    ensures AreRebookings(sc, table, start, end, RuleEvents(sc, table, start, end))
  {
    var made := Filter(EventTest(sc, table, start, end), Sort(BookingLe, table));
    PickedInOrder(EventTest(sc, table, start, end), table, made);
    PickedAre(sc, table, start, end, made);
    var events := RuleEvents(sc, table, start, end);
    hide *;
    forall i | 0 <= i < |made| ensures IsEventIn(sc, table, start, end, made[i]) && made[i] in table {
      assert made[i] in made;
    }
    forall i | 0 <= i < |made|
      ensures made[i].created == Some(events[i].createDate) && events[i].eventId == made[i].id
      ensures IsReport(sc, table, start, end, events[i])
      ensures forall v | IsFirstRebooking(sc, table, made[i], v) :: Reports(sc, table, events[i], made[i], v)
    {
      PickedReports(sc, table, start, end, made[i]);
    }
    forall c, v | IsFirstRebooking(sc, table, c, v) && start <= sc.zone.localDay(c.created.value) <= end
      ensures c in made
    {
      RebookingPicked(sc, table, start, end, c, v);
    }
    ReportsAreRebookings(sc, table, start, end, made, events);
  }
}
