/** The search `_opz_events` makes: two narrowed reads, one sorted index, one pass with a set of taken visits. */
module OpzSearch {
  import opened Wrappers
  import opened Sorting
  import opened Clock
  import opened Opz
  import opened OpzOutcome

  // ---------------------------------------------------------------- the narrowed reads

  /** Whether a booking created at `created` could be anchored on `day`, judged by its UTC day alone. */
  predicate WithinAnchorReach(day: int, created: int) {
    DayOf(created) - 2 <= day <= DayOf(created) + 1
  }

  /** The probe: some completed visit of the same client shortly before the booking. */
  predicate IsPriorVisit(start: int, end: int, c: Appointment, p: Appointment)
    requires c.created.Some? && c.date.Some?
  {
    && p.company == c.company && p.client.Some? && p.client == c.client && p.completed
    && p.date.Some? && p.date.value < c.date.value
    && start - 2 <= p.date.value <= end
    && WithinAnchorReach(p.date.value, c.created.value)
  }

  predicate IsCandidate(sc: Scope, table: seq<Appointment>, start: int, end: int, c: Appointment) {
    && IsBooking(sc, c)
    && sc.zone.midnight(start - 1) <= c.created.value < sc.zone.midnight(end + 1)
    && exists p | p in table :: IsPriorVisit(start, end, c, p)
  }

  function CandidateTest(sc: Scope, table: seq<Appointment>, start: int, end: int): Appointment -> bool {
    c => IsCandidate(sc, table, start, end, c)
  }

  /** Some surviving candidate of the same client could be anchored on this visit. */
  predicate NearSurvivor(survivors: seq<Appointment>, a: Appointment)
    requires a.date.Some?
  {
    exists s | s in survivors ::
      s.client.Some? && s.client == a.client && s.created.Some? && WithinAnchorReach(a.date.value, s.created.value)
  }

  predicate IsVisitRead(sc: Scope, survivors: seq<Appointment>, narrowed: bool, start: int, end: int, a: Appointment) {
    && IsVisit(sc, a) && start - 2 <= a.date.value <= end
    && (narrowed ==> NearSurvivor(survivors, a))
  }

  function VisitTest(sc: Scope, survivors: seq<Appointment>, narrowed: bool, start: int,
                     end: int): Appointment -> bool {
    a => IsVisitRead(sc, survivors, narrowed, start, end, a)
  }

  function ClientTest(client: Option<int>): Appointment -> bool {
    (a: Appointment) => a.client == client
  }

  // ---------------------------------------------------------------- the index

  /** One client's visits in visit order, with their dates alongside for the bisection. */
  datatype VisitIndex = VisitIndex(dates: seq<int>, visits: seq<Appointment>)

  ghost predicate Indexes(ix: VisitIndex, visits: seq<Appointment>, client: Option<int>) {
    && ix.visits == Sort(VisitLe, Filter(ClientTest(client), visits))
    && |ix.dates| == |ix.visits|
    && forall i | 0 <= i < |ix.visits| :: ix.visits[i].date == Some(ix.dates[i])
  }

  method GroupByClient(visits: seq<Appointment>) returns (groups: map<Option<int>, seq<Appointment>>)
    ensures forall k :: k in groups <==> exists v :: v in visits && v.client == k
    ensures forall k | k in groups :: groups[k] == Filter(ClientTest(k), visits)
  {
    groups := map[];
    for i := 0 to |visits|
      invariant forall k :: k in groups <==> exists v :: v in visits[..i] && v.client == k
      invariant forall k | k in groups :: groups[k] == Filter(ClientTest(k), visits[..i])
    {
      var v := visits[i];
      assert visits[..i + 1] == visits[..i] + [v];
      forall k ensures Filter(ClientTest(k), visits[..i + 1])
                    == Filter(ClientTest(k), visits[..i]) + if v.client == k then [v] else []
      {
        FilterConcat(ClientTest(k), visits[..i], [v]);
      }
      if v.client !in groups {
        FilterNone(ClientTest(v.client), visits[..i]);
      }
      groups := groups[v.client := (if v.client in groups then groups[v.client] else []) + [v]];
    }
    assert visits[..|visits|] == visits;
  }

  method DatesOf(visits: seq<Appointment>) returns (dates: seq<int>)
    requires forall v | v in visits :: v.date.Some?
    ensures |dates| == |visits|
    ensures forall i | 0 <= i < |visits| :: visits[i].date == Some(dates[i])
  {
    dates := [];
    for i := 0 to |visits|
      invariant |dates| == i
      invariant forall j | 0 <= j < i :: visits[j].date == Some(dates[j])
    {
      assert visits[i] in visits;
      dates := dates + [visits[i].date.value];
    }
  }

  method IndexVisits(visits: seq<Appointment>) returns (index: map<Option<int>, VisitIndex>)
    requires forall v | v in visits :: v.date.Some?
    ensures forall k :: k in index <==> exists v :: v in visits && v.client == k
    ensures forall k | k in index :: Indexes(index[k], visits, k)
  {
    var groups := GroupByClient(visits);
    index := map[];
    var rest := groups.Keys;
    while rest != {}
      invariant index.Keys == groups.Keys - rest && rest <= groups.Keys
      invariant forall k | k in index :: Indexes(index[k], visits, k)
    {
      var client :| client in rest;
      var sorted := Sort(VisitLe, groups[client]);
      SortPermutes(VisitLe, groups[client]);
      FilterKeeps(ClientTest(client), visits);
      var dates := DatesOf(sorted);
      index := index[client := VisitIndex(dates, sorted)];
      rest := rest - {client};
    }
  }

  /** `bisect_right`: how many leading elements are at most `x`. */
  method BisectRight(a: seq<int>, x: int) returns (pos: nat)
    requires forall i, j | 0 <= i < j < |a| :: a[i] <= a[j]
    ensures pos <= |a|
    ensures forall i | 0 <= i < pos :: a[i] <= x
    ensures forall i | pos <= i < |a| :: x < a[i]
  {
    var lo, hi := 0, |a|;
    while lo < hi
      invariant 0 <= lo <= hi <= |a|
      invariant forall i | 0 <= i < lo :: a[i] <= x
      invariant forall i | hi <= i < |a| :: x < a[i]
    {
      var mid := (lo + hi) / 2;
      if x < a[mid] {
        hi := mid;
      } else {
        lo := mid + 1;
      }
    }
    pos := lo;
  }

  /** The latest of the read visits of one client dated on or before `day`. */
  ghost predicate IsLatestRead(visits: seq<Appointment>, client: Option<int>, day: int, v: Appointment) {
    && v in visits && v.client == client && v.date.Some? && v.date.value <= day
    && forall w | w in visits && w.client == client && w.date.Some? && w.date.value <= day :: VisitLe(w, v)
  }

  lemma IndexOrdered(ix: VisitIndex, visits: seq<Appointment>, client: Option<int>)
    requires Indexes(ix, visits, client)
    ensures SortedBy(VisitLe, ix.visits)
    ensures forall i, j | 0 <= i < j < |ix.dates| :: ix.dates[i] <= ix.dates[j]
    ensures forall w :: w in ix.visits <==> w in visits && w.client == client
  {
    var mine := Filter(ClientTest(client), visits);
    FilterKeeps(ClientTest(client), visits);
    SortPermutes(VisitLe, mine);
    OrdersAreTotal();
    SortSorts(VisitLe, mine);
    forall i, j | 0 <= i < j < |ix.dates| ensures ix.dates[i] <= ix.dates[j] {
      assert VisitLe(ix.visits[i], ix.visits[j]);
    }
  }

  /** The entry just before the first one later than `day` is the latest visit up to `day`. */
  lemma LastBeforeIsLatest(ix: VisitIndex, visits: seq<Appointment>, client: Option<int>, day: int, position: nat)
    requires Indexes(ix, visits, client) && 0 < position <= |ix.dates|
    requires forall i | 0 <= i < position :: ix.dates[i] <= day
    requires forall i | position <= i < |ix.dates| :: day < ix.dates[i]
    ensures IsLatestRead(visits, client, day, ix.visits[position - 1])
  {
    IndexOrdered(ix, visits, client);
    var v := ix.visits[position - 1];
    assert v in ix.visits;
    forall w | w in visits && w.client == client && w.date.Some? && w.date.value <= day ensures VisitLe(w, v) {
      assert w in ix.visits;
      var i :| 0 <= i < |ix.visits| && ix.visits[i] == w;
      assert i < position;
      assert i < position - 1 ==> VisitLe(ix.visits[i], ix.visits[position - 1]);
      assert VisitLe(v, v);
    }
  }

  method LatestVisit(index: map<Option<int>, VisitIndex>, visits: seq<Appointment>, client: Option<int>, day: int)
    returns (last: Option<Appointment>)
    requires forall k :: k in index <==> exists v :: v in visits && v.client == k
    requires forall k | k in index :: Indexes(index[k], visits, k)
    ensures last.Some? ==> IsLatestRead(visits, client, day, last.value)
    ensures last.None? ==> forall w | w in visits && w.client == client :: w.date.Some? && day < w.date.value
  {
    if client !in index {
      return None;
    }
    var ix := index[client];
    IndexOrdered(ix, visits, client);
    var position := BisectRight(ix.dates, day);
    if position == 0 {
      forall w | w in visits && w.client == client ensures w.date.Some? && day < w.date.value {
        assert w in ix.visits;
        var i :| 0 <= i < |ix.visits| && ix.visits[i] == w;
        assert day < ix.dates[i];
      }
      return None;
    }
    LastBeforeIsLatest(ix, visits, client, day, position);
    last := Some(ix.visits[position - 1]);
  }

  // ---------------------------------------------------------------- why the narrowing is invisible

  /** The visits read for these survivors, as the search reads them. */
  ghost predicate ReadsFor(sc: Scope, table: seq<Appointment>, start: int, end: int,
                           survivors: seq<Appointment>, narrowed: bool, visits: seq<Appointment>) {
    && survivors == Sort(BookingLe, Filter(CandidateTest(sc, table, start, end), table))
    && visits == Filter(VisitTest(sc, survivors, narrowed, start, end), table)
  }

  /** A candidate's local day lies in [start - 1, end], and its anchor's reach covers that day and the one before. */
  lemma CandidateDays(sc: Scope, table: seq<Appointment>, start: int, end: int, c: Appointment)
    requires ValidZone(sc.zone) && IsBooking(sc, c)
    ensures sc.zone.midnight(start - 1) <= c.created.value < sc.zone.midnight(end + 1)
       <==> start - 1 <= BookingDay(sc, c) <= end
    ensures forall d | BookingDay(sc, c) - 1 <= d <= BookingDay(sc, c) :: WithinAnchorReach(d, c.created.value)
  {
    var day := BookingDay(sc, c);
    assert DayOf(c.created.value) - 1 <= sc.zone.localDay(c.created.value) <= DayOf(c.created.value) + 1;
  }

  /** A booking of the read days that rebooks a visit survives the probe. */
  lemma RebookingsSurvive(sc: Scope, table: seq<Appointment>, start: int, end: int, c: Appointment, v: Appointment)
    requires ValidZone(sc.zone) && c in table && Rebooks(sc, table, c, v)
    requires start - 1 <= BookingDay(sc, c) <= end
    ensures IsCandidate(sc, table, start, end, c)
  {
    CandidateDays(sc, table, start, end, c);
    assert IsPriorVisit(start, end, c, v);
  }

  /** The visits a candidate can be anchored on are read, narrowed or not. */
  lemma NearVisitsRead(sc: Scope, table: seq<Appointment>, start: int, end: int, survivors: seq<Appointment>,
                       narrowed: bool, visits: seq<Appointment>, c: Appointment, w: Appointment)
    requires ValidZone(sc.zone) && ReadsFor(sc, table, start, end, survivors, narrowed, visits)
    requires c in survivors && IsCandidate(sc, table, start, end, c)
    requires w in table && IsEarlierVisit(sc, c, w) && BookingDay(sc, c) - 1 <= w.date.value
    ensures w in visits
  {
    CandidateDays(sc, table, start, end, c);
    assert NearSurvivor(survivors, w);
    FilterKeeps(VisitTest(sc, survivors, narrowed, start, end), table);
  }

  /** The latest read visit passes the day rule exactly when it is the anchor and the booking rebooks it. */
  lemma LatestReadIsAnchor(sc: Scope, table: seq<Appointment>, start: int, end: int, survivors: seq<Appointment>,
                           narrowed: bool, visits: seq<Appointment>, c: Appointment, v: Appointment)
    requires ValidZone(sc.zone) && ReadsFor(sc, table, start, end, survivors, narrowed, visits)
    requires c in survivors && IsCandidate(sc, table, start, end, c)
    requires IsLatestRead(visits, c.client, BookingDay(sc, c), v)
    ensures Rebooks(sc, table, c, v)
       <==> v.date.value < c.date.value && v.date.value <= BookingDay(sc, c) <= v.date.value + 1
  {
    FilterKeeps(VisitTest(sc, survivors, narrowed, start, end), table);
    if BookingDay(sc, c) <= v.date.value + 1 {
      forall w | w in table && IsEarlierVisit(sc, c, w) ensures VisitLe(w, v) {
        if BookingDay(sc, c) - 1 <= w.date.value {
          NearVisitsRead(sc, table, start, end, survivors, narrowed, visits, c, w);
        }
      }
    }
  }

  /** Nothing but the latest read visit can be rebooked, and nothing at all when no visit was read. */
  lemma OnlyLatestReadRebooked(sc: Scope, table: seq<Appointment>, start: int, end: int, survivors: seq<Appointment>,
                               narrowed: bool, visits: seq<Appointment>, c: Appointment,
                               last: Option<Appointment>, v: Appointment)
    requires ValidZone(sc.zone) && UniqueIds(table) && ReadsFor(sc, table, start, end, survivors, narrowed, visits)
    requires c in survivors && IsCandidate(sc, table, start, end, c)
    requires last.Some? ==> IsLatestRead(visits, c.client, BookingDay(sc, c), last.value)
    requires last.None?
      ==> forall w | w in visits && w.client == c.client :: w.date.Some? && BookingDay(sc, c) < w.date.value
    requires Rebooks(sc, table, c, v)
    ensures last == Some(v)
  {
    FilterKeeps(VisitTest(sc, survivors, narrowed, start, end), table);
    NearVisitsRead(sc, table, start, end, survivors, narrowed, visits, c, v);
    assert VisitLe(v, last.value) && VisitLe(last.value, v);
  }

  /** Seen from a booking of the window, every earlier rebooking of its anchor was read and comes before it. */
  lemma EarlierRebookingsRead(sc: Scope, table: seq<Appointment>, start: int, end: int,
                              c: Appointment, b: Appointment, v: Appointment)
    requires ValidZone(sc.zone) && b in table
    requires Rebooks(sc, table, c, v) && Rebooks(sc, table, b, v) && BookingLe(b, c)
    requires start <= BookingDay(sc, c) <= end
    ensures IsCandidate(sc, table, start, end, b)
  {
    DaysFollowOrder(sc, b, c);
    RebookingsSurvive(sc, table, start, end, b, v);
  }

  // ---------------------------------------------------------------- the pass over the candidates

  ghost function AcceptedAmong(sc: Scope, table: seq<Appointment>, start: int, end: int,
                               s: seq<Appointment>): seq<Appointment> {
    Filter(EventTest(sc, table, start, end), s)
  }

  /** Everything the pass knows after a number of candidates. */
  ghost predicate PassInvariant(sc: Scope, table: seq<Appointment>, start: int, end: int, done: seq<Appointment>,
                                events: seq<OpzEvent>, taken: set<int>) {
    var accepted := AcceptedAmong(sc, table, start, end, done);
    && (forall x :: x in taken <==> TakenBy(sc, table, done, x))
    && |events| == |accepted|
    && (forall k | 0 <= k < |events| :: IsEvent(sc, table, accepted[k])
          && events[k].(firstVisit := false) == EventOf(sc, table, accepted[k]).(firstVisit := false)
          && !events[k].firstVisit)
  }

  /** The accepted candidates are exactly the accepted bookings of the whole table, in the same order. */
  lemma CandidatesHoldEveryEvent(sc: Scope, table: seq<Appointment>, start: int, end: int)
    requires ValidZone(sc.zone)
    ensures AcceptedAmong(sc, table, start, end, Sort(BookingLe, Filter(CandidateTest(sc, table, start, end), table)))
         == AcceptedAmong(sc, table, start, end, Sort(BookingLe, table))
  {
    var p := EventTest(sc, table, start, end);
    var wide := CandidateTest(sc, table, start, end);
    OrdersAreTotal();
    forall c | c in table && p(c) ensures wide(c) {
      var v :| FirstToRebook(sc, table, c, v);
      RebookingsSurvive(sc, table, start, end, c, v);
    }
    FilterSort(p, BookingLe, Filter(wide, table));
    FilterSort(p, BookingLe, table);
    FilterTwice(p, wide, table);
  }

  lemma SameId(table: seq<Appointment>, a: Appointment, b: Appointment)
    requires UniqueIds(table) && a in table && b in table && a.id == b.id
    ensures a == b
  {
  }

  /** Two different rows are never each before the other. */
  lemma StrictlyBefore(table: seq<Appointment>, a: Appointment, b: Appointment)
    requires UniqueIds(table) && a in table && b in table && a != b && BookingLe(a, b)
    ensures !BookingLe(b, a)
  {
    if a.id == b.id {
      SameId(table, a, b);
    }
  }

  ghost predicate TakenBy(sc: Scope, table: seq<Appointment>, done: seq<Appointment>, x: int) {
    exists b, v :: b in done && Rebooks(sc, table, b, v) && v.id == x
  }

  /** A visit taken before the candidate's turn was rebooked first by someone else. */
  lemma TakenMeansNotFirst(sc: Scope, table: seq<Appointment>, survivors: seq<Appointment>, i: nat, v: Appointment)
    requires UniqueIds(table) && i < |survivors| && SortedBy(BookingLe, survivors) && Distinct(survivors)
    requires forall c | c in survivors :: c in table
    requires v in table && TakenBy(sc, table, survivors[..i], v.id)
    ensures !FirstToRebook(sc, table, survivors[i], v)
  {
    var b, w :| b in survivors[..i] && Rebooks(sc, table, b, w) && w.id == v.id;
    var j :| 0 <= j < i && survivors[j] == b;
    assert survivors[i] in survivors && survivors[j] in survivors;
    SameId(table, w, v);
    StrictlyBefore(table, b, survivors[i]);
  }

  /** A candidate of the window whose visit is still free at its turn is the first to rebook it. */
  lemma FreeMeansFirst(sc: Scope, table: seq<Appointment>, start: int, end: int, survivors: seq<Appointment>, i: nat,
                       v: Appointment)
    requires ValidZone(sc.zone) && i < |survivors| && SortedBy(BookingLe, survivors)
    requires forall c :: c in survivors <==> c in table && IsCandidate(sc, table, start, end, c)
    requires Rebooks(sc, table, survivors[i], v) && start <= BookingDay(sc, survivors[i]) <= end
    requires !TakenBy(sc, table, survivors[..i], v.id)
    ensures FirstToRebook(sc, table, survivors[i], v)
  {
    var c := survivors[i];
    forall b | b in table && Rebooks(sc, table, b, v) ensures BookingLe(c, b) {
      if !BookingLe(c, b) {
        EarlierRebookingsRead(sc, table, start, end, c, b, v);
      }
    }
  }

  lemma SurvivorFacts(sc: Scope, table: seq<Appointment>, start: int, end: int, survivors: seq<Appointment>)
    requires UniqueIds(table)
    requires survivors == Sort(BookingLe, Filter(CandidateTest(sc, table, start, end), table))
    ensures forall c :: c in survivors <==> c in table && IsCandidate(sc, table, start, end, c)
    ensures SortedBy(BookingLe, survivors) && Distinct(survivors)
  {
    var test := CandidateTest(sc, table, start, end);
    OrdersAreTotal();
    FilterKeeps(test, table);
    SortPermutes(BookingLe, Filter(test, table));
    SortSorts(BookingLe, Filter(test, table));
    assert Distinct(table);
    FilterDistinct(test, table);
    SortDistinct(BookingLe, Filter(test, table));
  }

  /** What one turn of the pass decides, from what `LatestVisit` found. */
  lemma TurnDecides(sc: Scope, table: seq<Appointment>, start: int, end: int, survivors: seq<Appointment>,
                    narrowed: bool, visits: seq<Appointment>, i: nat, last: Option<Appointment>, taken: set<int>)
    requires ValidZone(sc.zone) && UniqueIds(table) && i < |survivors|
    requires ReadsFor(sc, table, start, end, survivors, narrowed, visits)
    requires IsCandidate(sc, table, start, end, survivors[i])
    requires last.Some? ==> IsLatestRead(visits, survivors[i].client, BookingDay(sc, survivors[i]), last.value)
    requires last.None? ==> forall w | w in visits && w.client == survivors[i].client ::
      w.date.Some? && BookingDay(sc, survivors[i]) < w.date.value
    requires forall x :: x in taken <==> TakenBy(sc, table, survivors[..i], x)
    ensures forall v :: Rebooks(sc, table, survivors[i], v) <==> last == Some(v) && PassesDayRule(sc, survivors[i], v)
    ensures IsEventIn(sc, table, start, end, survivors[i])
       <==> last.Some? && PassesDayRule(sc, survivors[i], last.value) && last.value.id !in taken
            && start <= BookingDay(sc, survivors[i])
    ensures IsEventIn(sc, table, start, end, survivors[i]) ==>
      EventOf(sc, table, survivors[i]).(firstVisit := false) == Draft(sc, survivors[i], last.value)
  {
    var c := survivors[i];
    CandidateDays(sc, table, start, end, c);
    SurvivorFacts(sc, table, start, end, survivors);
    assert c in survivors;
    forall v ensures Rebooks(sc, table, c, v) <==> last == Some(v) && PassesDayRule(sc, c, v) {
      if Rebooks(sc, table, c, v) {
        OnlyLatestReadRebooked(sc, table, start, end, survivors, narrowed, visits, c, last, v);
      }
      if last == Some(v) {
        LatestReadIsAnchor(sc, table, start, end, survivors, narrowed, visits, c, v);
      }
    }
    if start <= BookingDay(sc, c) && last.Some? && PassesDayRule(sc, c, last.value) {
      if last.value.id in taken {
        TakenMeansNotFirst(sc, table, survivors, i, last.value);
      } else {
        FreeMeansFirst(sc, table, start, end, survivors, i, last.value);
      }
    }
  }

  predicate PassesDayRule(sc: Scope, c: Appointment, v: Appointment)
    requires IsBooking(sc, c)
  {
    v.date.Some? && v.date.value < c.date.value && v.date.value <= BookingDay(sc, c) <= v.date.value + 1
  }

  lemma PassStarts(sc: Scope, table: seq<Appointment>, start: int, end: int)
    ensures PassInvariant(sc, table, start, end, [], [], {})
  {
  }

  lemma TakenStep(sc: Scope, table: seq<Appointment>, done: seq<Appointment>, c: Appointment, x: int)
    ensures TakenBy(sc, table, done + [c], x)
       <==> TakenBy(sc, table, done, x) || exists v :: Rebooks(sc, table, c, v) && v.id == x
  {
    if TakenBy(sc, table, done + [c], x) {
      var b, v :| b in done + [c] && Rebooks(sc, table, b, v) && v.id == x;
      assert b in done || b == c;
    }
    if exists v :: Rebooks(sc, table, c, v) && v.id == x {
      var v :| Rebooks(sc, table, c, v) && v.id == x;
      assert c in done + [c];
    }
    if TakenBy(sc, table, done, x) {
      var b, v :| b in done && Rebooks(sc, table, b, v) && v.id == x;
      assert b in done + [c];
    }
  }

  lemma AcceptStep(sc: Scope, table: seq<Appointment>, start: int, end: int, done: seq<Appointment>, c: Appointment)
    ensures AcceptedAmong(sc, table, start, end, done + [c])
         == AcceptedAmong(sc, table, start, end, done) + if IsEventIn(sc, table, start, end, c) then [c] else []
  {
    FilterConcat(EventTest(sc, table, start, end), done, [c]);
  }

  /** The pass: each candidate in order, one event per visit not taken yet. */
  method Pass(sc: Scope, table: seq<Appointment>, start: int, end: int, candidates: seq<Appointment>,
              ghost narrowed: bool, visits: seq<Appointment>, index: map<Option<int>, VisitIndex>)
    returns (events: seq<OpzEvent>)
    requires ValidZone(sc.zone) && UniqueIds(table)
    requires ReadsFor(sc, table, start, end, candidates, narrowed, visits)
    requires forall c | c in candidates :: c in table && IsCandidate(sc, table, start, end, c)
    requires forall k :: k in index <==> exists v :: v in visits && v.client == k
    requires forall k | k in index :: Indexes(index[k], visits, k)
    ensures exists taken :: PassInvariant(sc, table, start, end, candidates, events, taken)
  {
    events := [];
    var taken: set<int> := {};
    PassStarts(sc, table, start, end);
    for i := 0 to |candidates|
      invariant PassInvariant(sc, table, start, end, candidates[..i], events, taken)
    {
      var c := candidates[i];
      assert candidates[..i + 1] == candidates[..i] + [c];
      assert c in candidates;
      var day := BookingDay(sc, c);
      var last := LatestVisit(index, visits, c.client, day);
      TurnDecides(sc, table, start, end, candidates, narrowed, visits, i, last, taken);
      AcceptStep(sc, table, start, end, candidates[..i], c);
      forall x ensures TakenBy(sc, table, candidates[..i + 1], x)
        <==> TakenBy(sc, table, candidates[..i], x) || exists v :: Rebooks(sc, table, c, v) && v.id == x
      {
        TakenStep(sc, table, candidates[..i], c, x);
      }
      if last.Some? && last.value.date.value < c.date.value
         && (day == last.value.date.value || day == last.value.date.value + 1)
         && last.value.id !in taken
      {
        taken := taken + {last.value.id};
        if start <= day {
          events := events + [Draft(sc, c, last.value)];
        }
      }
    }
    assert candidates[..|candidates|] == candidates;
  }

  // ---------------------------------------------------------------- first visits and the whole search

  ghost predicate IsFirstDay(sc: Scope, table: seq<Appointment>, end: int, client: Option<int>, day: int) {
    && (exists w ::
         w in table && CountsAsHistory(sc, w) && w.client == client && w.date.value <= end && w.date.value == day)
    && (forall w | w in table && CountsAsHistory(sc, w) && w.client == client && w.date.value <= end ::
         day <= w.date.value)
  }

  /** Each client's first visit day up to `end`. */
  method FirstVisitDays(sc: Scope, table: seq<Appointment>, end: int) returns (days: map<Option<int>, int>)
    ensures forall k | k in days :: IsFirstDay(sc, table, end, k, days[k])
    ensures forall w | w in table && CountsAsHistory(sc, w) && w.date.value <= end :: w.client in days
  {
    days := map[];
    for i := 0 to |table|
      invariant forall k | k in days :: IsFirstDay(sc, table[..i], end, k, days[k])
      invariant forall w | w in table[..i] && CountsAsHistory(sc, w) && w.date.value <= end :: w.client in days
    {
      var w := table[i];
      assert table[..i + 1] == table[..i] + [w];
      ghost var before := days;
      if CountsAsHistory(sc, w) && w.date.value <= end {
        var first := if w.client in days && days[w.client] <= w.date.value then days[w.client] else w.date.value;
        days := days[w.client := first];
      }
      forall k | k in days ensures IsFirstDay(sc, table[..i + 1], end, k, days[k]) {
        FirstDayStep(sc, table[..i], end, w, k, if k in before then Some(before[k]) else None, days[k]);
      }
    }
    assert table[..|table|] == table;
  }

  lemma FirstDayStep(sc: Scope, done: seq<Appointment>, end: int, w: Appointment, k: Option<int>, was: Option<int>,
                     day: int)
    requires was.Some? ==> IsFirstDay(sc, done, end, k, was.value)
    requires was.None? ==> forall u | u in done && CountsAsHistory(sc, u) && u.date.value <= end :: u.client != k
    requires if CountsAsHistory(sc, w) && w.date.value <= end && w.client == k
             then day == if was.Some? && was.value <= w.date.value then was.value else w.date.value
             else was == Some(day)
    ensures IsFirstDay(sc, done + [w], end, k, day)
  {
    assert w in done + [w];
    if was == Some(day) {
      var u :| u in done && CountsAsHistory(sc, u) && u.client == k && u.date.value <= end && u.date.value == day;
      assert u in done + [w];
    }
  }

  /** The flag computed from first days up to `end` is the windowless notion of a first visit. */
  lemma FirstVisitFlag(sc: Scope, table: seq<Appointment>, end: int, days: map<Option<int>, int>, client: Option<int>,
                       day: int)
    requires day <= end
    requires forall k | k in days :: IsFirstDay(sc, table, end, k, days[k])
    requires forall w | w in table && CountsAsHistory(sc, w) && w.date.value <= end :: w.client in days
    ensures (client in days ==> day <= days[client]) <==> IsFirstVisit(sc, table, client, day)
  {
    if client in days && day <= days[client] {
      forall w | w in table && CountsAsHistory(sc, w) && w.client == client ensures day <= w.date.value {
      }
    }
  }

  lemma EventFields(sc: Scope, table: seq<Appointment>, start: int, end: int, c: Appointment)
    requires ValidZone(sc.zone) && IsEventIn(sc, table, start, end, c)
    ensures EventOf(sc, table, c).lastVisitDate <= end
    ensures EventOf(sc, table, c).client == c.client
    ensures EventOf(sc, table, c).firstVisit
       <==> IsFirstVisit(sc, table, c.client, EventOf(sc, table, c).lastVisitDate)
  {
  }

  method FlagFirstVisits(sc: Scope, ghost table: seq<Appointment>, ghost start: int, ghost end: int,
                         drafts: seq<OpzEvent>,
                         days: map<Option<int>, int>, ghost accepted: seq<Appointment>)
    returns (events: seq<OpzEvent>)
    requires ValidZone(sc.zone)
    requires forall k | k in days :: IsFirstDay(sc, table, end, k, days[k])
    requires forall w | w in table && CountsAsHistory(sc, w) && w.date.value <= end :: w.client in days
    requires |drafts| == |accepted|
    requires forall k | 0 <= k < |drafts| :: IsEventIn(sc, table, start, end, accepted[k])
    requires forall k | 0 <= k < |drafts| :: (
      IsEvent(sc, table, accepted[k]) && drafts[k] == EventOf(sc, table, accepted[k]).(firstVisit := false))
    ensures |events| == |accepted|
    ensures forall k | 0 <= k < |events| ::
      IsEvent(sc, table, accepted[k]) && events[k] == EventOf(sc, table, accepted[k])
  {
    events := [];
    for i := 0 to |drafts|
      invariant |events| == i
      invariant forall k | 0 <= k < i :: IsEvent(sc, table, accepted[k]) && events[k] == EventOf(sc, table, accepted[k])
    {
      EventFields(sc, table, start, end, accepted[i]);
      FirstVisitFlag(sc, table, end, days, drafts[i].client, drafts[i].lastVisitDate);
      var first := drafts[i].client in days ==> drafts[i].lastVisitDate <= days[drafts[i].client];
      events := events + [drafts[i].(firstVisit := first)];
    }
  }

  /** `_opz_events`: the search returns exactly the rule's events, whether or not the visit read is narrowed. */
  method FindEvents(sc: Scope, table: seq<Appointment>, start: int, end: int, survivorLimit: nat)
    returns (events: seq<OpzEvent>)
    requires ValidZone(sc.zone) && UniqueIds(table)
    requires DATE_MIN + 3 < start
    ensures events == RuleEvents(sc, table, start, end)
    ensures AreRebookings(sc, table, start, end, events)
  {
    hide ValidZone, EventOf, FirstToRebook, IsFirstDay, CountsAsHistory, AreRebookings;
    EventsAreRebookings(sc, table, start, end);
    ghost var test := EventTest(sc, table, start, end);
    var candidates := Sort(BookingLe, Filter(CandidateTest(sc, table, start, end), table));
    SurvivorFacts(sc, table, start, end, candidates);
    CandidatesHoldEveryEvent(sc, table, start, end);
    FilterKeeps(test, Sort(BookingLe, table));
    if candidates == [] {
      return [];
    }
    var narrowed := |candidates| <= survivorLimit;
    var visits := Filter(VisitTest(sc, candidates, narrowed, start, end), table);
    FilterKeeps(VisitTest(sc, candidates, narrowed, start, end), table);
    var index := IndexVisits(visits);
    var drafts := Pass(sc, table, start, end, candidates, narrowed, visits, index);
    ghost var accepted := AcceptedAmong(sc, table, start, end, candidates);
    var days := FirstVisitDays(sc, table, end);
    forall k | 0 <= k < |drafts| ensures IsEventIn(sc, table, start, end, accepted[k]) {
      assert accepted[k] in accepted;
    }
    events := FlagFirstVisits(sc, table, start, end, drafts, days, accepted);
  }
}
