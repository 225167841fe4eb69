/** Refresh-token sessions: what each operation does to the rows, and what holds over every run. */
module SessionRules {
  import opened Wrappers
  import opened Clock

  /** Token values stand for their hashes; `lastUsed` may be missing on old rows. */
  datatype Session = Session(
    user: int, token: int, previous: Option<int>, expires: int, created: int,
    lastUsed: Option<int>, rotated: Option<int>)

  type Rows = map<int, Session>

  datatype Config = Config(expireDays: int, maxAgeDays: int, maxSessions: int)

  const GRACE := 30_000_000
  const DEMO_MAX_SESSIONS := 200

  function AgeCap(cfg: Config): int {
    (if cfg.maxAgeDays < 1 then 1 else cfg.maxAgeDays) * DAY
  }

  function MaxActive(cfg: Config, demo: bool): (n: int)
    ensures 1 <= n
  {
    if demo then DEMO_MAX_SESSIONS else if cfg.maxSessions < 1 then 1 else cfg.maxSessions
  }

  function Expiry(cfg: Config, created: int, now: int): (e: int)
    ensures e <= created + AgeCap(cfg)
  {
    var sliding := now + cfg.expireDays * DAY;
    if sliding <= created + AgeCap(cfg) then sliding else created + AgeCap(cfg)
  }

  // ---------------------------------------------------------------- retiring sessions

  predicate IsLive(rows: Rows, user: int, now: int, id: int) {
    id in rows && rows[id].user == user && now < rows[id].expires
  }

  /** Most recently used first, never-used last, newer ids before older ones. */
  predicate Before(rows: Rows, a: int, b: int)
    requires a in rows && b in rows
  {
    match (rows[a].lastUsed, rows[b].lastUsed)
    case (Some(x), Some(y)) => y < x || (x == y && b < a)
    case (Some(_), None) => true
    case (None, Some(_)) => false
    case (None, None) => b < a
  }

  function Ahead(rows: Rows, user: int, now: int, id: int): set<int>
    requires id in rows
  {
    set j | j in rows && IsLive(rows, user, now, j) && Before(rows, j, id)
  }

  /** The user's expired sessions go, and of the live ones all but the `max` first. */
  predicate IsKept(rows: Rows, user: int, now: int, max: int, id: int)
    requires id in rows
  {
    rows[id].user != user || (now < rows[id].expires && |Ahead(rows, user, now, id)| < max)
  }

  function Maintained(rows: Rows, user: int, now: int, max: int): Rows {
    map id | id in rows && IsKept(rows, user, now, max, id) :: rows[id]
  }

  // ---------------------------------------------------------------- issuing, rotating, revoking

  function NewSession(cfg: Config, user: int, token: int, now: int): Session {
    Session(user, token, None, Expiry(cfg, now, now), now, Some(now), None)
  }

  function Issued(cfg: Config, rows: Rows, id: int, user: int, demo: bool, token: int, now: int): Rows {
    Maintained(rows[id := NewSession(cfg, user, token, now)], user, now, MaxActive(cfg, demo))
  }

  predicate HoldsToken(rows: Rows, id: int, t: int) {
    id in rows && rows[id].token == t
  }

  predicate HoldsPrevious(rows: Rows, id: int, t: int) {
    id in rows && rows[id].previous == Some(t)
  }

  /** A rotation past its checks: which session, by which token, and when it looked. */
  datatype Ticket = Ticket(id: int, presented: int, grace: bool, user: int, created: int, now: int)

  datatype Loaded = Refused | Ended(id: int) | Proceed(ticket: Ticket)

  predicate WithinGrace(s: Session, now: int) {
    s.rotated.Some? && now - s.rotated.value <= GRACE
  }

  /** What `_load_rotatable_refresh` decides of the session it found. */
  function Examine(cfg: Config, rows: Rows, id: int, presented: int, byPrevious: bool, now: int): Loaded
    requires id in rows
  {
    var s := rows[id];
    if byPrevious && !WithinGrace(s, now) then Ended(id)
    else if s.expires < now then Refused
    else if s.created + AgeCap(cfg) <= now then Ended(id)
    else Proceed(Ticket(id, presented, byPrevious, s.user, s.created, now))
  }

  /** The session is looked up by its current token first, then by its previous one. */
  ghost predicate LoadsAs(cfg: Config, rows: Rows, presented: int, now: int, r: Loaded) {
    if exists id :: HoldsToken(rows, id, presented) then
      exists id :: HoldsToken(rows, id, presented) && r == Examine(cfg, rows, id, presented, false, now)
    else if exists id :: HoldsPrevious(rows, id, presented) then
      exists id :: HoldsPrevious(rows, id, presented) && r == Examine(cfg, rows, id, presented, true, now)
    else r == Refused
  }

  function AfterLoad(rows: Rows, r: Loaded): Rows {
    if r.Ended? then rows - {r.id} else rows
  }

  /** The guarded update still finds the session by the token it was presented with. */
  predicate StillMatches(rows: Rows, k: Ticket) {
    && k.id in rows && k.now < rows[k.id].expires
    && if k.grace then rows[k.id].previous == Some(k.presented) else rows[k.id].token == k.presented
  }

  function Rotated(cfg: Config, s: Session, k: Ticket, minted: int): Session {
    s.(token := minted, previous := if k.grace then s.previous else Some(k.presented), rotated := Some(k.now),
       expires := Expiry(cfg, k.created, k.now), lastUsed := Some(k.now))
  }

  function AfterRotate(cfg: Config, rows: Rows, k: Ticket, demo: bool, minted: int): Rows {
    if StillMatches(rows, k)
    then Maintained(rows[k.id := Rotated(cfg, rows[k.id], k, minted)], k.user, k.now, MaxActive(cfg, demo))
    else rows
  }

  function WithoutToken(rows: Rows, t: int): Rows {
    map id | id in rows && rows[id].token != t :: rows[id]
  }

  function WithoutUser(rows: Rows, user: int): Rows {
    map id | id in rows && rows[id].user != user :: rows[id]
  }

  function WithoutSession(rows: Rows, user: int, session: int): Rows {
    map id | id in rows && !(id == session && rows[id].user == user) :: rows[id]
  }

  // ---------------------------------------------------------------- what is kept is the top

  /** The live sessions of a user in order: every session's rank is its position. */
  ghost predicate LiveOrder(rows: Rows, user: int, now: int, order: seq<int>) {
    && (forall id :: id in order <==> IsLive(rows, user, now, id))
    && Ordered(rows, order)
  }

  ghost predicate Ordered(rows: Rows, order: seq<int>) {
    && (forall p | 0 <= p < |order| :: order[p] in rows)
    && (forall p, q | 0 <= p < q < |order| :: Before(rows, order[p], order[q]))
  }

  lemma BeforeIsStrict(rows: Rows, a: int, b: int)
    requires a in rows && b in rows && Before(rows, a, b)
    ensures !Before(rows, b, a) && a != b
  {
  }

  ghost function Prefix(order: seq<int>, p: nat): set<int>
    requires p <= |order|
  {
    set i | 0 <= i < p :: order[i]
  }

  lemma {:induction false} PrefixSize(rows: Rows, order: seq<int>, p: nat)
    requires p <= |order| && Ordered(rows, order)
    ensures |Prefix(order, p)| == p
  {
    if p == 0 {
      assert Prefix(order, 0) == {};
    } else {
      PrefixSize(rows, order, p - 1);
      assert Prefix(order, p) == Prefix(order, p - 1) + {order[p - 1]};
      assert order[p - 1] !in Prefix(order, p - 1);
    }
  }

  lemma RankIsPosition(rows: Rows, user: int, now: int, order: seq<int>, p: nat)
    requires LiveOrder(rows, user, now, order) && p < |order|
    ensures |Ahead(rows, user, now, order[p])| == p
  {
    PrefixSize(rows, order, p);
    forall j ensures j in Ahead(rows, user, now, order[p]) <==> j in Prefix(order, p) {
      if j in Ahead(rows, user, now, order[p]) {
        assert j in order;
        var i :| 0 <= i < |order| && order[i] == j;
        if p < i {
          BeforeIsStrict(rows, order[p], order[i]);
        } else if i == p {
          BeforeIsStrict(rows, j, order[p]);
        }
      }
      if j in Prefix(order, p) {
        var i :| 0 <= i < p && order[i] == j;
        assert order[i] in order;
      }
    }
    SetExt(Ahead(rows, user, now, order[p]), Prefix(order, p));
  }

  /** `ORDER BY last_used_at DESC NULLS LAST, id DESC`: a new entry takes its place. */
  function InsertLive(rows: Rows, order: seq<int>, id: int): (r: seq<int>)
    requires id in rows && Ordered(rows, order) && id !in order
    ensures Ordered(rows, r) && forall j :: j in r <==> j == id || j in order
  {
    if order == [] then [id]
    else if Before(rows, id, order[0]) then
      BeforeAll(rows, id, order);
      [id] + order
    else
      var rest := InsertLive(rows, order[1..], id);
      assert forall i | 0 <= i < |rest| :: rest[i] in rest;
      assert forall i | 0 <= i < |rest| :: Before(rows, order[0], rest[i]);
      [order[0]] + rest
  }

  lemma BeforeAll(rows: Rows, id: int, order: seq<int>)
    requires id in rows && Ordered(rows, order) && order != [] && Before(rows, id, order[0])
    ensures forall i | 0 <= i < |order| :: Before(rows, id, order[i])
  {
  }

  /** Every user's live sessions can be listed in order. */
  lemma LiveListed(rows: Rows, user: int, now: int) returns (order: seq<int>)
    ensures LiveOrder(rows, user, now, order)
  {
    var live := set id | id in rows && IsLive(rows, user, now, id);
    order := [];
    var rest := live;
    while rest != {}
      invariant rest <= live && Ordered(rows, order)
      invariant forall id :: id in order <==> id in live - rest
    {
      var id := Any(rest);
      order := InsertLive(rows, order, id);
      rest := rest - {id};
    }
  }

  function Least(a: nat, b: nat): nat {
    if a < b then a else b
  }

  ghost function LiveOf(rows: Rows, user: int, now: int): set<int> {
    set id | id in rows && IsLive(rows, user, now, id)
  }

  /** After maintenance the user keeps exactly the first `max` of their live sessions, and nothing expired. */
  lemma KeepsTheTop(rows: Rows, user: int, now: int, max: nat)
    ensures var after := Maintained(rows, user, now, max);
      && |LiveOf(after, user, now)| == Least(|LiveOf(rows, user, now)|, max)
      && (forall id | id in after && after[id].user == user :: IsLive(after, user, now, id))
    ensures forall a, b | a in LiveOf(Maintained(rows, user, now, max), user, now) && b in LiveOf(rows, user, now) ::
      b in Maintained(rows, user, now, max) || Before(rows, a, b)
  {
    var after := Maintained(rows, user, now, max);
    var order := LiveListed(rows, user, now);
    var n := if |order| < max then |order| else max;
    forall id ensures id in LiveOf(after, user, now) <==> id in Prefix(order, n) {
      if id in LiveOf(after, user, now) {
        assert id in order;
        var p :| 0 <= p < |order| && order[p] == id;
        RankIsPosition(rows, user, now, order, p);
      }
      if id in Prefix(order, n) {
        var p :| 0 <= p < n && order[p] == id;
        assert order[p] in order;
        RankIsPosition(rows, user, now, order, p);
      }
    }
    SetExt(LiveOf(after, user, now), Prefix(order, n));
    forall id ensures id in LiveOf(rows, user, now) <==> id in Prefix(order, |order|) {
    }
    SetExt(LiveOf(rows, user, now), Prefix(order, |order|));
    PrefixSize(rows, order, n);
    PrefixSize(rows, order, |order|);
    forall a, b | a in LiveOf(after, user, now) && b in LiveOf(rows, user, now) && b !in after
      ensures Before(rows, a, b)
    {
      var p :| 0 <= p < n && order[p] == a;
      var q :| 0 <= q < |order| && order[q] == b;
      assert n <= q by {
        assert b !in Prefix(order, n);
      }
    }
  }

  /**
   * A session just issued is kept exactly when it can live at all and fewer than `max` live ones are marked as used
   * later.
   */
  lemma IssuedKeptExactly(cfg: Config, rows: Rows, id: int, user: int, demo: bool, token: int, now: int)
    requires forall j | j in rows :: j < id
    ensures id in Issued(cfg, rows, id, user, demo, token, now)
       <==> 0 < cfg.expireDays && |UsedLater(rows, user, now)| < MaxActive(cfg, demo)
  {
    var all := rows[id := NewSession(cfg, user, token, now)];
    assert Expiry(cfg, now, now) > now <==> 0 < cfg.expireDays;
    forall j ensures j in Ahead(all, user, now, id) <==> j in UsedLater(rows, user, now) {
    }
    SetExt(Ahead(all, user, now, id), UsedLater(rows, user, now));
  }

  ghost function UsedLater(rows: Rows, user: int, now: int): set<int> {
    set j | j in rows && IsLive(rows, user, now, j) && rows[j].lastUsed.Some? && now < rows[j].lastUsed.value
  }

  // ---------------------------------------------------------------- runs

  /** `used` holds every token ever minted, `tickets` every rotation past its checks. */
  datatype Store = Store(rows: Rows, nextId: int, used: set<int>, tickets: set<Ticket>)

  datatype Op =
    | Issue(user: int, demo: bool, token: int, now: int)
    | Load(presented: int, now: int, r: Loaded)
    | Rotate(k: Ticket, active: bool, demo: bool, token: int)
    | Tidy(user: int, demo: bool, now: int)
    | RevokeToken(token: int)
    | RevokeUser(user: int)
    | RevokeSession(user: int, session: int)

  /** Minted tokens never repeat. */
  ghost predicate Allowed(cfg: Config, s: Store, op: Op) {
    match op
    case Issue(_, _, token, _) => token !in s.used
    case Load(presented, now, r) => LoadsAs(cfg, s.rows, presented, now, r)
    case Rotate(k, _, _, token) => token !in s.used && k in s.tickets
    case _ => true
  }

  function Apply(cfg: Config, s: Store, op: Op): Store {
    match op
    case Issue(user, demo, token, now) =>
      s.(rows := Issued(cfg, s.rows, s.nextId, user, demo, token, now), nextId := s.nextId + 1,
         used := s.used + {token})
    case Load(presented, now, r) =>
      s.(rows := AfterLoad(s.rows, r), tickets := if r.Proceed? then s.tickets + {r.ticket} else s.tickets)
    case Rotate(k, active, demo, token) =>
      if active then s.(rows := AfterRotate(cfg, s.rows, k, demo, token), used := s.used + {token}) else s
    case Tidy(user, demo, now) => s.(rows := Maintained(s.rows, user, now, MaxActive(cfg, demo)))
    case RevokeToken(token) => s.(rows := WithoutToken(s.rows, token))
    case RevokeUser(user) => s.(rows := WithoutUser(s.rows, user))
    case RevokeSession(user, session) => s.(rows := WithoutSession(s.rows, user, session))
  }

  ghost predicate IsRun(cfg: Config, run: seq<Store>, ops: seq<Op>) {
    && |run| == |ops| + 1 && run[0].rows == map[] && run[0].tickets == {}
    && forall n | 0 <= n < |ops| :: Allowed(cfg, run[n], ops[n]) && run[n + 1] == Apply(cfg, run[n], ops[n])
  }

  predicate Slot(rows: Rows, id: int, t: int) {
    HoldsToken(rows, id, t) || HoldsPrevious(rows, id, t)
  }

  /** A token sits in at most one slot of one session. */
  ghost predicate OneOwner(rows: Rows) {
    && (forall a, b, t | Slot(rows, a, t) && Slot(rows, b, t) :: a == b)
    && (forall id | id in rows :: rows[id].previous != Some(rows[id].token))
  }

  ghost predicate TicketOk(rows: Rows, nextId: int, k: Ticket) {
    k.id < nextId && (k.id in rows ==> rows[k.id].user == k.user && rows[k.id].created == k.created)
  }

  ghost predicate Inv(cfg: Config, s: Store) {
    && OneOwner(s.rows)
    && (forall id | id in s.rows :: id < s.nextId && s.rows[id].expires <= s.rows[id].created + AgeCap(cfg))
    && (forall id, t | Slot(s.rows, id, t) :: t in s.used)
    && (forall k | k in s.tickets :: TicketOk(s.rows, s.nextId, k))
  }

  /** Rows only removed, the rest as they were. */
  ghost predicate Shrinks(rows: Rows, after: Rows) {
    forall id | id in after :: id in rows && after[id] == rows[id]
  }

  lemma ShrinkKeepsInv(cfg: Config, s: Store, after: Rows)
    requires Inv(cfg, s) && Shrinks(s.rows, after)
    ensures Inv(cfg, s.(rows := after))
  {
    forall id, t | Slot(after, id, t) ensures Slot(s.rows, id, t) {
    }
  }

  lemma IssueKeepsInv(cfg: Config, s: Store, user: int, demo: bool, token: int, now: int)
    requires Inv(cfg, s) && token !in s.used
    ensures Inv(cfg, Apply(cfg, s, Issue(user, demo, token, now)))
  {
    hide Maintained, MaxActive;
    var added := s.(rows := s.rows[s.nextId := NewSession(cfg, user, token, now)], nextId := s.nextId + 1,
                    used := s.used + {token});
    forall id, t | Slot(added.rows, id, t) ensures if id == s.nextId then t == token else Slot(s.rows, id, t) {
    }
    assert Inv(cfg, added);
    MaintainedShrinks(added.rows, user, now, MaxActive(cfg, demo));
    ShrinkKeepsInv(cfg, added, Maintained(added.rows, user, now, MaxActive(cfg, demo)));
  }

  lemma MaintainedShrinks(rows: Rows, user: int, now: int, max: int)
    ensures Shrinks(rows, Maintained(rows, user, now, max))
  {
  }

  lemma RotateKeepsInv(cfg: Config, s: Store, k: Ticket, demo: bool, token: int)
    requires Inv(cfg, s) && token !in s.used && k in s.tickets && StillMatches(s.rows, k)
    ensures Inv(cfg, Apply(cfg, s, Rotate(k, true, demo, token)))
  {
    hide Maintained, MaxActive;
    assert TicketOk(s.rows, s.nextId, k);
    var turned := s.(rows := s.rows[k.id := Rotated(cfg, s.rows[k.id], k, token)], used := s.used + {token});
    forall id, t | Slot(turned.rows, id, t) ensures Slot(s.rows, id, t) || (id == k.id && t == token) {
    }
    forall a, b, t | Slot(turned.rows, a, t) && Slot(turned.rows, b, t) ensures a == b {
      if t == token {
        assert !Slot(s.rows, a, t) && !Slot(s.rows, b, t);
      } else {
        assert Slot(s.rows, a, t) && Slot(s.rows, b, t);
      }
    }
    assert Slot(s.rows, k.id, k.presented);
    assert OneOwner(turned.rows);
    assert Inv(cfg, turned);
    MaintainedShrinks(turned.rows, k.user, k.now, MaxActive(cfg, demo));
    ShrinkKeepsInv(cfg, turned, Maintained(turned.rows, k.user, k.now, MaxActive(cfg, demo)));
  }

  lemma LoadKeepsInv(cfg: Config, s: Store, presented: int, now: int, r: Loaded)
    requires Inv(cfg, s) && LoadsAs(cfg, s.rows, presented, now, r)
    ensures Inv(cfg, Apply(cfg, s, Load(presented, now, r)))
  {
    ShrinkKeepsInv(cfg, s, AfterLoad(s.rows, r));
  }

  lemma OpKeepsInv(cfg: Config, s: Store, op: Op)
    requires Inv(cfg, s) && Allowed(cfg, s, op)
    ensures Inv(cfg, Apply(cfg, s, op))
  {
    hide Inv, LoadsAs, Maintained;
    match op
    case Issue(user, demo, token, now) => IssueKeepsInv(cfg, s, user, demo, token, now);
    case Load(presented, now, r) => LoadKeepsInv(cfg, s, presented, now, r);
    case Rotate(k, active, demo, token) =>
      if active {
        if StillMatches(s.rows, k) {
          RotateKeepsInv(cfg, s, k, demo, token);
        } else {
          MintKeepsInv(cfg, s, token);
        }
      }
    case Tidy(user, demo, now) =>
      MaintainedShrinks(s.rows, user, now, MaxActive(cfg, demo));
      ShrinkKeepsInv(cfg, s, Maintained(s.rows, user, now, MaxActive(cfg, demo)));
    case RevokeToken(token) => ShrinkKeepsInv(cfg, s, WithoutToken(s.rows, token));
    case RevokeUser(user) => ShrinkKeepsInv(cfg, s, WithoutUser(s.rows, user));
    case RevokeSession(user, session) => ShrinkKeepsInv(cfg, s, WithoutSession(s.rows, user, session));
  }

  lemma MintKeepsInv(cfg: Config, s: Store, token: int)
    requires Inv(cfg, s)
    ensures Inv(cfg, s.(used := s.used + {token}))
  {
  }

  lemma {:induction false} RunKeepsInv(cfg: Config, run: seq<Store>, ops: seq<Op>, n: nat)
    requires IsRun(cfg, run, ops) && n < |run|
    ensures Inv(cfg, run[n])
    decreases n
  {
    hide Apply, Allowed;
    if n > 0 {
      RunKeepsInv(cfg, run, ops, n - 1);
      assert run[n - 1 + 1] == Apply(cfg, run[n - 1], ops[n - 1]);
      OpKeepsInv(cfg, run[n - 1], ops[n - 1]);
    }
  }

  // ---------------------------------------------------------------- what every run guarantees

  /** The look-up finds at most one session, so its outcome is determined. */
  lemma LoadDetermined(cfg: Config, s: Store, presented: int, now: int, r: Loaded, q: Loaded)
    requires Inv(cfg, s)
    requires LoadsAs(cfg, s.rows, presented, now, r) && LoadsAs(cfg, s.rows, presented, now, q)
    ensures r == q
  {
    hide Examine;
    if id :| HoldsToken(s.rows, id, presented) {
      forall j | HoldsToken(s.rows, j, presented) ensures j == id {
        assert Slot(s.rows, j, presented) && Slot(s.rows, id, presented);
      }
    } else if id :| HoldsPrevious(s.rows, id, presented) {
      forall j | HoldsPrevious(s.rows, j, presented) ensures j == id {
        assert Slot(s.rows, j, presented) && Slot(s.rows, id, presented);
      }
    }
  }

  /** The token was minted and has left every slot. */
  ghost predicate IsSpent(s: Store, t: int) {
    t in s.used && forall id :: !Slot(s.rows, id, t)
  }

  /** A minted token moves one way: no step puts it into a slot it was not in, or back into the current one. */
  lemma SlotsOnlyLost(cfg: Config, s: Store, op: Op, t: int, id: int)
    requires Allowed(cfg, s, op) && t in s.used
    ensures t in Apply(cfg, s, op).used
    ensures HoldsToken(Apply(cfg, s, op).rows, id, t) ==> HoldsToken(s.rows, id, t)
    ensures Slot(Apply(cfg, s, op).rows, id, t) ==> Slot(s.rows, id, t)
  {
    hide LoadsAs, MaxActive, IsKept;
  }

  /**
   * Over every run: a token out of the current slot never returns to one, out of both it never returns at all, and it
   * never changes session.
   */
  lemma {:induction false} OneWayLife(cfg: Config, run: seq<Store>, ops: seq<Op>, n: nat, m: nat, t: int, id: int)
    requires IsRun(cfg, run, ops) && n <= m < |run| && t in run[n].used
    ensures t in run[m].used
    ensures HoldsToken(run[m].rows, id, t) ==> HoldsToken(run[n].rows, id, t)
    ensures Slot(run[m].rows, id, t) ==> Slot(run[n].rows, id, t)
    decreases m - n
  {
    hide Apply, Allowed, Slot, HoldsToken;
    if n < m {
      OneWayLife(cfg, run, ops, n, m - 1, t, id);
      assert run[m - 1 + 1] == Apply(cfg, run[m - 1], ops[m - 1]);
      SlotsOnlyLost(cfg, run[m - 1], ops[m - 1], t, id);
    }
  }

  /** A spent token is refused by every later look-up and fails the guard of every later update. */
  lemma SpentTokensAreRefused(cfg: Config, run: seq<Store>, ops: seq<Op>, n: nat, m: nat, t: int)
    requires IsRun(cfg, run, ops) && n <= m < |run| && IsSpent(run[n], t)
    ensures IsSpent(run[m], t)
    ensures forall now, r | LoadsAs(cfg, run[m].rows, t, now, r) :: r == Refused
    ensures forall k: Ticket | k.presented == t :: !StillMatches(run[m].rows, k)
  {
    hide Examine;
    forall id ensures !HoldsToken(run[m].rows, id, t) && !HoldsPrevious(run[m].rows, id, t) {
      assert !Slot(run[n].rows, id, t);
      OneWayLife(cfg, run, ops, n, m, t, id);
    }
    OneWayLife(cfg, run, ops, n, m, t, 0);
    forall k: Ticket | k.presented == t ensures !StillMatches(run[m].rows, k) {
      assert !HoldsToken(run[m].rows, k.id, t) && !HoldsPrevious(run[m].rows, k.id, t);
    }
  }

  /**
   * The token a rotation lets go of: an ordinary one the token before last, a grace retry the current one the client
   * never saw.
   */
  function Retired(s: Session, k: Ticket): Option<int> {
    if k.grace then Some(s.token) else s.previous
  }

  /**
   * Rotation adds no row, leaves the presented token as the one spare, and the token it lets go of is in no slot any
   * more.
   */
  lemma RotationKeepsOneSpare(cfg: Config, s: Store, k: Ticket, demo: bool, token: int)
    requires Inv(cfg, s) && StillMatches(s.rows, k) && token !in s.used
    ensures var after := AfterRotate(cfg, s.rows, k, demo, token);
      && after.Keys <= s.rows.Keys
      && (forall id | id in after && id != k.id :: after[id] == s.rows[id])
      && (k.id in after ==> after[k.id].token == token && after[k.id].previous == Some(k.presented))
      && (Retired(s.rows[k.id], k).Some? ==> forall id :: !Slot(after, id, Retired(s.rows[k.id], k).value))
      && (forall id | id != k.id :: !Slot(after, id, k.presented) && !Slot(after, id, token))
  {
    hide IsKept, MaxActive;
    var after := AfterRotate(cfg, s.rows, k, demo, token);
    assert Slot(s.rows, k.id, k.presented);
    if Retired(s.rows[k.id], k).Some? {
      assert Slot(s.rows, k.id, Retired(s.rows[k.id], k).value);
    }
    forall id, t | id != k.id && Slot(after, id, t) ensures Slot(s.rows, id, t) {
    }
  }

  /** However often a session is rotated, it never outlives its age cap, and a token is in one session at a time. */
  lemma SessionsBounded(cfg: Config, run: seq<Store>, ops: seq<Op>, n: nat, id: int)
    requires IsRun(cfg, run, ops) && n < |run| && id in run[n].rows
    ensures run[n].rows[id].expires <= run[n].rows[id].created + AgeCap(cfg)
    ensures forall j, t | Slot(run[n].rows, id, t) && Slot(run[n].rows, j, t) :: j == id
  {
    RunKeepsInv(cfg, run, ops, n);
  }

  /** Right after issuing or rotating, the user has at most the allowed live sessions and no expired one. */
  lemma SignInKeepsLimit(cfg: Config, rows: Rows, nextId: int, k: Ticket, user: int, demo: bool, token: int, now: int)
    ensures |LiveOf(Issued(cfg, rows, nextId, user, demo, token, now), user, now)| <= MaxActive(cfg, demo)
    ensures StillMatches(rows, k)
      ==> |LiveOf(AfterRotate(cfg, rows, k, demo, token), k.user, k.now)| <= MaxActive(cfg, demo)
  {
    hide Maintained, MaxActive;
    KeepsTheTop(rows[nextId := NewSession(cfg, user, token, now)], user, now, MaxActive(cfg, demo));
    if StillMatches(rows, k) {
      KeepsTheTop(rows[k.id := Rotated(cfg, rows[k.id], k, token)], k.user, k.now, MaxActive(cfg, demo));
    }
  }
}
