/** Rebooking (OPZ) events: the windowed search of `_opz_events` against the plain rule over all rows. */
module Opz {
  import opened Wrappers
  import opened Sorting
  import opened Clock
  import opened Reporting

  datatype Appointment = Appointment(
    id: int, company: int, client: Option<int>, staff: Option<int>, createdUser: Option<int>,
    date: Option<int>, moment: Option<int>, created: Option<int>, completed: bool, business: bool)

  datatype OpzEvent = OpzEvent(
    eventId: int, company: int, client: Option<int>, createDate: int, eventDate: int, appointmentDate: int,
    lastVisitDate: int, barberStaff: Option<int>, createdUser: Option<int>, firstVisit: bool)

  /** A branch's wall clock: the local day of a moment, and the UTC moment a local day begins at. */
  datatype Zone = Zone(localDay: int -> int, midnight: int -> int)

  /** The "as of" moment of a report, with the business day it falls on. */
  datatype FactCut = FactCut(moment: int, day: int)

  datatype Scope = Scope(company: int, zone: Zone, window: Window, factualAt: Option<FactCut>)

  /** The hypothesis about time zones: the local day is within one day of the UTC day and only moves forward. */
  ghost predicate ValidZone(z: Zone) {
    && (forall m :: DayOf(m) - 1 <= z.localDay(m) <= DayOf(m) + 1)
    && (forall m, d :: z.midnight(d) <= m <==> d <= z.localDay(m))
  }

  // ---------------------------------------------------------------- the rule, without any window

  /** A visit a rebooking may be anchored on. */
  predicate IsVisit(sc: Scope, a: Appointment) {
    && a.company == sc.company && a.completed && a.date.Some? && sc.window.Covers(a.date.value)
    && (sc.factualAt.Some? ==>
          if a.moment.Some? then a.moment.value <= sc.factualAt.value.moment
          else a.date.value <= sc.factualAt.value.day)
  }

  predicate IsBooking(sc: Scope, a: Appointment) {
    && a.company == sc.company && a.client.Some? && a.date.Some? && a.created.Some?
    && (sc.factualAt.Some? ==> a.created.value <= sc.factualAt.value.moment)
  }

  /** The order of a client's visits: by date, then by moment (or the start of the day), then by id. */
  predicate VisitLe(a: Appointment, b: Appointment) {
    var (ad, bd) := (a.date.GetOr(0), b.date.GetOr(0));
    var (am, bm) := (a.moment.GetOr(ad * DAY), b.moment.GetOr(bd * DAY));
    ad < bd || (ad == bd && (am < bm || (am == bm && a.id <= b.id)))
  }

  /** The order bookings are taken in: by creation, then by id. */
  predicate BookingLe(a: Appointment, b: Appointment) {
    var (ac, bc) := (a.created.GetOr(0), b.created.GetOr(0));
    ac < bc || (ac == bc && a.id <= b.id)
  }

  function BookingDay(sc: Scope, c: Appointment): int
    requires c.created.Some?
  {
    sc.zone.localDay(c.created.value)
  }

  /** `v` is a visit of the booking's client on or before the booking's local day. */
  predicate IsEarlierVisit(sc: Scope, c: Appointment, v: Appointment)
    requires c.created.Some?
  {
    IsVisit(sc, v) && v.client == c.client && v.date.value <= BookingDay(sc, c)
  }

  /** `v` is the latest of them. */
  ghost predicate IsAnchor(sc: Scope, table: seq<Appointment>, c: Appointment, v: Appointment)
    requires c.created.Some?
  {
    && v in table && IsEarlierVisit(sc, c, v)
    && forall w | w in table && IsEarlierVisit(sc, c, w) :: VisitLe(w, v)
  }

  /** The booking is made on its anchor's day or the day after, for a later date. */
  ghost predicate Rebooks(sc: Scope, table: seq<Appointment>, c: Appointment, v: Appointment) {
    && IsBooking(sc, c) && IsAnchor(sc, table, c, v)
    && v.date.value < c.date.value
    && v.date.value <= BookingDay(sc, c) <= v.date.value + 1
  }

  ghost predicate FirstToRebook(sc: Scope, table: seq<Appointment>, c: Appointment, v: Appointment) {
    Rebooks(sc, table, c, v) && forall b | b in table && Rebooks(sc, table, b, v) :: BookingLe(c, b)
  }

  ghost predicate IsEvent(sc: Scope, table: seq<Appointment>, c: Appointment) {
    exists v :: FirstToRebook(sc, table, c, v)
  }

  /** The visit is on the client's first visit day in the branch. */
  ghost predicate IsFirstVisit(sc: Scope, table: seq<Appointment>, client: Option<int>, day: int) {
    forall w | w in table && CountsAsHistory(sc, w) && w.client == client :: day <= w.date.value
  }

  predicate CountsAsHistory(sc: Scope, a: Appointment) {
    && a.company == sc.company && a.client.Some? && a.completed && a.business
    && a.date.Some? && sc.window.Covers(a.date.value)
  }

  function Draft(sc: Scope, c: Appointment, v: Appointment): OpzEvent
    requires IsBooking(sc, c) && v.date.Some?
  {
    OpzEvent(c.id, c.company, c.client, c.created.value, BookingDay(sc, c), c.date.value,
             v.date.value, v.staff, c.createdUser, false)
  }

  ghost function EventOf(sc: Scope, table: seq<Appointment>, c: Appointment): OpzEvent
    requires IsEvent(sc, table, c)
  {
    var v :| FirstToRebook(sc, table, c, v);
    Draft(sc, c, v).(firstVisit := IsFirstVisit(sc, table, c.client, v.date.value))
  }

  ghost predicate IsEventIn(sc: Scope, table: seq<Appointment>, start: int, end: int, c: Appointment) {
    IsEvent(sc, table, c) && c.created.Some? && start <= BookingDay(sc, c) <= end
  }

  ghost function EventTest(sc: Scope, table: seq<Appointment>, start: int, end: int): Appointment -> bool {
    c => IsEventIn(sc, table, start, end, c)
  }

  ghost function EventsOf(sc: Scope, table: seq<Appointment>, bookings: seq<Appointment>): seq<OpzEvent>
    requires forall c | c in bookings :: IsEvent(sc, table, c)
  {
    seq(|bookings|, i requires 0 <= i < |bookings| => EventOf(sc, table, bookings[i]))
  }

  /** The rule: every booking of the table, in order, that is an event made in [start, end]. */
  ghost function RuleEvents(sc: Scope, table: seq<Appointment>, start: int, end: int): seq<OpzEvent> {
    FilterKeeps(EventTest(sc, table, start, end), Sort(BookingLe, table));
    EventsOf(sc, table, Filter(EventTest(sc, table, start, end), Sort(BookingLe, table)))
  }

  /** `id` is the primary key. */
  ghost predicate UniqueIds(table: seq<Appointment>) {
    forall i, j | 0 <= i < j < |table| :: table[i].id != table[j].id
  }

  // ---------------------------------------------------------------- facts about the rule

  lemma OrdersAreTotal()
    ensures TotalOrder(VisitLe) && TotalOrder(BookingLe)
  {
  }

  lemma AnchorUnique(sc: Scope, table: seq<Appointment>, c: Appointment, v: Appointment, w: Appointment)
    requires UniqueIds(table) && c.created.Some?
    requires IsAnchor(sc, table, c, v) && IsAnchor(sc, table, c, w)
    ensures v == w
  {
    assert VisitLe(v, w) && VisitLe(w, v);
  }

  /** Every anchor visit is rebooked by at most one event, whatever the windows. */
  lemma OneEventPerVisit(sc: Scope, table: seq<Appointment>, a: Appointment, b: Appointment, v: Appointment)
    requires UniqueIds(table) && a in table && b in table
    requires FirstToRebook(sc, table, a, v) && FirstToRebook(sc, table, b, v)
    ensures a == b
  {
    assert BookingLe(a, b) && BookingLe(b, a);
  }

  /** The local day never runs backwards in the order bookings are taken in. */
  lemma DaysFollowOrder(sc: Scope, a: Appointment, b: Appointment)
    requires ValidZone(sc.zone) && a.created.Some? && b.created.Some? && BookingLe(a, b)
    ensures BookingDay(sc, a) <= BookingDay(sc, b)
  {
    var d := BookingDay(sc, a);
    assert sc.zone.midnight(d) <= a.created.value;
    assert sc.zone.midnight(d) <= b.created.value;
  }

  /** Cutting a day-ordered list at `mid` splits the window filter into the two filters, in order. */
  lemma {:induction false} SplitFilter(sc: Scope, table: seq<Appointment>, s: seq<Appointment>, start: int, mid: int,
                                       end: int)
    requires ValidZone(sc.zone) && start <= mid + 1 <= end + 1
    requires SortedBy(BookingLe, s)
    ensures Filter(EventTest(sc, table, start, end), s)
         == Filter(EventTest(sc, table, start, mid), s) + Filter(EventTest(sc, table, mid + 1, end), s)
  {
    if s == [] {
    } else {
      var rest := s[1..];
      SplitFilter(sc, table, rest, start, mid, end);
      if IsEventIn(sc, table, mid + 1, end, s[0]) {
        forall c | c in rest ensures !IsEventIn(sc, table, start, mid, c) {
          if c.created.Some? {
            var j :| 0 <= j < |rest| && rest[j] == c;
            assert s[j + 1] == c && BookingLe(s[0], s[j + 1]);
            DaysFollowOrder(sc, s[0], c);
          }
        }
        FilterNone(EventTest(sc, table, start, mid), rest);
      }
    }
  }

  /** The events of a window are the events of its parts, in order and with nothing shared. */
  lemma EventsAdditive(sc: Scope, table: seq<Appointment>, start: int, mid: int, end: int)
    requires ValidZone(sc.zone) && start <= mid + 1 <= end + 1
    ensures RuleEvents(sc, table, start, end)
         == RuleEvents(sc, table, start, mid) + RuleEvents(sc, table, mid + 1, end)
  {
    OrdersAreTotal();
    SortSorts(BookingLe, table);
    var s := Sort(BookingLe, table);
    SplitFilter(sc, table, s, start, mid, end);
    FilterKeeps(EventTest(sc, table, start, end), s);
    FilterKeeps(EventTest(sc, table, start, mid), s);
    FilterKeeps(EventTest(sc, table, mid + 1, end), s);
  }

  /** Where the windows cut at `cuts` begin and end: [start, cuts[0]), [cuts[0], cuts[1]), ..., [cuts[last], end]. */
  ghost predicate AdjacentCuts(start: int, cuts: seq<int>, end: int)
    decreases cuts
  {
    if cuts == [] then start <= end + 1 else start <= cuts[0] && AdjacentCuts(cuts[0], cuts[1..], end)
  }

  ghost function EventsOfParts(sc: Scope, table: seq<Appointment>, start: int, cuts: seq<int>, end: int): seq<OpzEvent>
    decreases cuts
  {
    if cuts == [] then RuleEvents(sc, table, start, end)
    else RuleEvents(sc, table, start, cuts[0] - 1) + EventsOfParts(sc, table, cuts[0], cuts[1..], end)
  }

  lemma {:induction false} CutsOrdered(start: int, cuts: seq<int>, end: int)
    requires AdjacentCuts(start, cuts, end)
    ensures start <= end + 1
    decreases cuts
  {
    if cuts != [] {
      CutsOrdered(cuts[0], cuts[1..], end);
    }
  }

  /** The same for any number of adjacent windows. */
  lemma {:induction false} EventsAdditiveOverParts(sc: Scope, table: seq<Appointment>, start: int, cuts: seq<int>,
                                                   end: int)
    requires ValidZone(sc.zone) && AdjacentCuts(start, cuts, end)
    ensures RuleEvents(sc, table, start, end) == EventsOfParts(sc, table, start, cuts, end)
    decreases cuts
  {
    if cuts == [] {
    } else {
      CutsOrdered(cuts[0], cuts[1..], end);
      EventsAdditiveOverParts(sc, table, cuts[0], cuts[1..], end);
      EventsAdditive(sc, table, start, cuts[0] - 1, end);
    }
  }

  /** A zone at a fixed offset of less than a day is a valid zone. */
  function FixedOffset(offset: int): Zone {
    Zone(m => (m + offset) / DAY, d => d * DAY - offset)
  }

  lemma FixedOffsetIsValid(offset: int)
    requires -DAY < offset < DAY
    ensures ValidZone(FixedOffset(offset))
  {
  }
}
