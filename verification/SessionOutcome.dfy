/** What each session operation comes to, told over the rows' fields and the clock. */
module SessionOutcome {
  import opened Wrappers
  import opened SessionRules

  /** Days in microseconds; an age cap under a day counts as one. */
  function CapOf(cfg: Config): int {
    (if 1 < cfg.maxAgeDays then cfg.maxAgeDays else 1) * 86_400_000_000
  }

  /** The session has neither expired nor reached its age cap. */
  predicate IsInTime(cfg: Config, s: Session, now: int) {
    now <= s.expires && now < s.created + CapOf(cfg)
  }

  predicate IsJustRotated(s: Session, now: int) {
    s.rotated.Some? && now <= s.rotated.value + 30_000_000
  }

  // ---------------------------------------------------------------- looking a token up

  /** A current token goes through in time; past the age cap the session ends, past its expiry it is just refused. */
  lemma CurrentTokenExactly(cfg: Config, rows: Rows, id: int, now: int, r: Loaded)
    requires OneOwner(rows) && id in rows && LoadsAs(cfg, rows, rows[id].token, now, r)
    ensures r.Proceed? <==> IsInTime(cfg, rows[id], now)
    ensures r.Proceed? ==> r.ticket == Ticket(id, rows[id].token, false, rows[id].user, rows[id].created, now)
    ensures r.Proceed? ==> AfterLoad(rows, r) == rows
    ensures r.Ended? <==> now <= rows[id].expires && rows[id].created + CapOf(cfg) <= now
    ensures r.Ended? ==> AfterLoad(rows, r) == rows - {id}
    ensures r.Refused? ==> AfterLoad(rows, r) == rows
  {
    forall j | HoldsToken(rows, j, rows[id].token) ensures j == id {
      assert Slot(rows, j, rows[id].token) && Slot(rows, id, rows[id].token);
    }
    assert HoldsToken(rows, id, rows[id].token);
  }

  /**
   * A token held only as the previous one goes through exactly when the session was rotated at most 30 seconds ago and
   * is in time; later than that the session is gone.
   */
  lemma PreviousTokenExactly(cfg: Config, rows: Rows, id: int, t: int, now: int, r: Loaded)
    requires OneOwner(rows) && id in rows && rows[id].previous == Some(t) && LoadsAs(cfg, rows, t, now, r)
    ensures r.Proceed? <==> IsJustRotated(rows[id], now) && IsInTime(cfg, rows[id], now)
    ensures r.Proceed?
      ==> r.ticket == Ticket(id, t, true, rows[id].user, rows[id].created, now) && AfterLoad(rows, r) == rows
    ensures !IsJustRotated(rows[id], now) ==> r == Ended(id) && AfterLoad(rows, r) == rows - {id}
    ensures r.Ended? ==> AfterLoad(rows, r) == rows - {id}
    ensures IsJustRotated(rows[id], now) ==>
      (r.Ended? <==> now <= rows[id].expires && rows[id].created + CapOf(cfg) <= now)
  {
    forall j | Slot(rows, j, t) ensures j == id {
      assert Slot(rows, id, t);
    }
    assert !HoldsToken(rows, id, t) && HoldsPrevious(rows, id, t);
    assert forall j :: HoldsToken(rows, j, t) ==> Slot(rows, j, t);
    assert forall j :: HoldsPrevious(rows, j, t) ==> Slot(rows, j, t);
  }

  /** A token in no slot is refused and changes nothing. */
  lemma UnknownTokenRefused(cfg: Config, rows: Rows, t: int, now: int, r: Loaded)
    requires LoadsAs(cfg, rows, t, now, r)
    requires forall id | id in rows :: rows[id].token != t && rows[id].previous != Some(t)
    ensures r == Refused && AfterLoad(rows, r) == rows
  {
    assert forall id :: !HoldsToken(rows, id, t) && !HoldsPrevious(rows, id, t);
  }

  /** Some look-up of the run let the ticket through, at its time. */
  ghost predicate WasIssued(cfg: Config, run: seq<Store>, ops: seq<Op>, m: nat, k: Ticket)
    requires m < |run| && m < |ops|
  {
    && ops[m] == Load(k.presented, k.now, Proceed(k)) && k.id in run[m].rows
    && var s := run[m].rows[k.id];
    && IsInTime(cfg, s, k.now) && s.user == k.user && s.created == k.created
    && if k.grace then s.previous == Some(k.presented) && s.token != k.presented && IsJustRotated(s, k.now)
       else s.token == k.presented
  }

  /**
   * Over every run, every rotation past its checks was let through by a look-up of a session in time; with a previous
   * token, at most 30 seconds after the session's last rotation.
   */
  lemma {:induction false} TicketWasIssued(cfg: Config, run: seq<Store>, ops: seq<Op>, n: nat, k: Ticket)
    returns (m: nat)
    requires IsRun(cfg, run, ops) && n < |run| && k in run[n].tickets
    ensures m < n && WasIssued(cfg, run, ops, m, k)
    decreases n
  {
    assert n > 0;
    assert Allowed(cfg, run[n - 1], ops[n - 1]) && run[n - 1 + 1] == Apply(cfg, run[n - 1], ops[n - 1]);
    if k in run[n - 1].tickets {
      m := TicketWasIssued(cfg, run, ops, n - 1, k);
    } else {
      m := n - 1;
      RunKeepsInv(cfg, run, ops, m);
      IssuedInTime(cfg, run[m], ops[m], k);
    }
  }

  lemma IssuedInTime(cfg: Config, s: Store, op: Op, k: Ticket)
    requires Inv(cfg, s) && Allowed(cfg, s, op) && k in Apply(cfg, s, op).tickets && k !in s.tickets
    ensures op == Load(k.presented, k.now, Proceed(k)) && k.id in s.rows
    ensures IsInTime(cfg, s.rows[k.id], k.now) && s.rows[k.id].user == k.user && s.rows[k.id].created == k.created
    ensures if k.grace then s.rows[k.id].previous == Some(k.presented) && IsJustRotated(s.rows[k.id], k.now)
      && s.rows[k.id].token != k.presented else s.rows[k.id].token == k.presented
  {
    hide Maintained;
    assert op.Load? && op.r == Proceed(k);
    var t := op.presented;
    if id :| HoldsToken(s.rows, id, t) {
      CurrentTokenExactly(cfg, s.rows, id, op.now, op.r);
    } else {
      assert exists id :: HoldsPrevious(s.rows, id, t);
      var id :| HoldsPrevious(s.rows, id, t);
      PreviousTokenExactly(cfg, s.rows, id, t, op.now, op.r);
    }
  }

  // ---------------------------------------------------------------- issuing, rotating, maintaining

  /** Used later; any use beats none, and of two alike the newer row. */
  predicate IsMoreRecent(rows: Rows, a: int, b: int)
    requires a in rows && b in rows
  {
    var (x, y) := (rows[a].lastUsed, rows[b].lastUsed);
    || (x.Some? && y.None?)
    || (x.Some? && y.Some? && y.value < x.value)
    || (x == y && b < a)
  }

  ghost function LiveSessions(rows: Rows, user: int, now: int): set<int> {
    set id | id in rows && rows[id].user == user && now < rows[id].expires
  }

  /**
   * Of the user's sessions the `limit` most recently used live ones are left; other users' sessions are all left, and
   * every row left is as it was.
   */
  ghost predicate KeepsMostRecent(rows: Rows, user: int, now: int, limit: nat, after: Rows) {
    && (forall id | id in after :: id in rows && after[id] == rows[id])
    && (forall id | id in rows && rows[id].user != user :: id in after)
    && (forall id | id in after && after[id].user == user :: id in LiveSessions(rows, user, now))
    && var (live, left) := (|LiveSessions(rows, user, now)|, |LiveSessions(after, user, now)|);
    && left == (if live <= limit then live else limit)
    && (forall a, b | a in LiveSessions(after, user, now) && b in LiveSessions(rows, user, now) && b !in after ::
          a in rows && b in rows && IsMoreRecent(rows, a, b))
  }

  lemma MaintainedExactly(rows: Rows, user: int, now: int, limit: nat)
    ensures KeepsMostRecent(rows, user, now, limit, Maintained(rows, user, now, limit))
  {
    var after := Maintained(rows, user, now, limit);
    KeepsTheTop(rows, user, now, limit);
    assert LiveSessions(rows, user, now) == LiveOf(rows, user, now);
    assert LiveSessions(after, user, now) == LiveOf(after, user, now);
    hide Ahead;
    forall a, b | a in LiveSessions(after, user, now) && b in LiveSessions(rows, user, now) && b !in after
      ensures a in rows && b in rows && IsMoreRecent(rows, a, b)
    {
      assert Before(rows, a, b);
    }
  }

  /** How many live sessions a user may have; the demo account two hundred. */
  function LimitOf(cfg: Config, demo: bool): nat {
    if demo then 200 else if 1 < cfg.maxSessions then cfg.maxSessions else 1
  }

  /** A use at `now` extends the session by its sliding term, up to its age cap. */
  predicate IsExtended(cfg: Config, created: int, now: int, expires: int) {
    var sliding := now + cfg.expireDays * 86_400_000_000;
    && expires <= sliding && expires <= created + CapOf(cfg)
    && (expires == sliding || expires == created + CapOf(cfg))
  }

  /** Issuing adds one session, just used and never rotated, and retires the least recently used ones. */
  lemma IssuedExactly(cfg: Config, rows: Rows, id: int, user: int, demo: bool, token: int, now: int)
    returns (expires: int)
    ensures IsExtended(cfg, now, now, expires)
    ensures KeepsMostRecent(rows[id := Session(user, token, None, expires, now, Some(now), None)], user, now,
                            LimitOf(cfg, demo), Issued(cfg, rows, id, user, demo, token, now))
  {
    expires := Expiry(cfg, now, now);
    MaintainedExactly(rows[id := NewSession(cfg, user, token, now)], user, now, LimitOf(cfg, demo));
    hide KeepsMostRecent;
  }

  /** The session is live and still holds the token where the look-up found it. */
  predicate StillHolds(rows: Rows, k: Ticket) {
    && k.id in rows && k.now < rows[k.id].expires
    && (if k.grace then rows[k.id].previous else Some(rows[k.id].token)) == Some(k.presented)
  }

  /**
   * Rotating puts the minted token in the current slot and the presented one in the previous slot, extends the session
   * and retires the least recently used ones; when the session does not hold the token any more nothing changes.
   */
  lemma RotatedExactly(cfg: Config, rows: Rows, k: Ticket, demo: bool, token: int) returns (expires: int)
    ensures StillMatches(rows, k) <==> StillHolds(rows, k)
    ensures IsExtended(cfg, k.created, k.now, expires)
    ensures !StillHolds(rows, k) ==> AfterRotate(cfg, rows, k, demo, token) == rows
    ensures StillHolds(rows, k) ==>
      var s := rows[k.id];
      KeepsMostRecent(rows[k.id := Session(s.user, token, Some(k.presented), expires, s.created, Some(k.now),
                                           Some(k.now))],
                      k.user, k.now, LimitOf(cfg, demo), AfterRotate(cfg, rows, k, demo, token))
  {
    expires := Expiry(cfg, k.created, k.now);
    if StillHolds(rows, k) {
      MaintainedExactly(rows[k.id := Rotated(cfg, rows[k.id], k, token)], k.user, k.now, LimitOf(cfg, demo));
    }
    hide KeepsMostRecent;
  }

  // ---------------------------------------------------------------- the runs there are

  /** A run starts without sessions. */
  lemma NothingStarts(cfg: Config, nextId: int, used: set<int>)
    ensures IsRun(cfg, [Store(map[], nextId, used, {})], [])
  {
  }

  /**
   * A run goes on with any operation: issuing and rotating mint a token never minted before, rotating takes a ticket a
   * look-up gave out, and a look-up answers what the rows say.
   */
  lemma RunGoesOn(cfg: Config, run: seq<Store>, ops: seq<Op>, op: Op)
    requires IsRun(cfg, run, ops)
    requires op.Issue? ==> op.token !in run[|ops|].used
    requires op.Rotate? ==> op.token !in run[|ops|].used && op.k in run[|ops|].tickets
    requires op.Load? ==> LoadsAs(cfg, run[|ops|].rows, op.presented, op.now, op.r)
    ensures IsRun(cfg, run + [Apply(cfg, run[|ops|], op)], ops + [op])
  {
    assert Allowed(cfg, run[|ops|], op);
    hide Apply, Allowed;
    var (longer, more) := (run + [Apply(cfg, run[|ops|], op)], ops + [op]);
    forall n | 0 <= n < |more|
      ensures Allowed(cfg, longer[n], more[n]) && longer[n + 1] == Apply(cfg, longer[n], more[n])
    {
      assert n < |ops| ==> longer[n] == run[n] && longer[n + 1] == run[n + 1] && more[n] == ops[n];
    }
  }

  /** Exactly the rows `goes` picks are gone, the rest are as they were. */
  ghost predicate Removes(rows: Rows, after: Rows, goes: (int, Session) -> bool) {
    && (forall id :: id in after <==> id in rows && !goes(id, rows[id]))
    && (forall id | id in after :: after[id] == rows[id])
  }

  /** What an operation does in a run: to the rows, the ids, the tokens minted and the tickets given out. */
  lemma AppliedExactly(cfg: Config, s: Store, op: Op)
    ensures var after := Apply(cfg, s, op);
      match op
      case Issue(user, demo, token, now) =>
        && after.rows == Issued(cfg, s.rows, s.nextId, user, demo, token, now) && after.nextId == s.nextId + 1
        && after.used == s.used + {token} && after.tickets == s.tickets
      case Load(_, _, r) =>
        && after.rows == AfterLoad(s.rows, r)
        && after.tickets == (if r.Proceed? then s.tickets + {r.ticket} else s.tickets)
        && after.nextId == s.nextId && after.used == s.used
      case Rotate(k, active, demo, token) =>
        if !active then after == s
        else after == s.(rows := AfterRotate(cfg, s.rows, k, demo, token), used := s.used + {token})
      case Tidy(user, demo, now) =>
        KeepsMostRecent(s.rows, user, now, LimitOf(cfg, demo), after.rows) && after == s.(rows := after.rows)
      case RevokeToken(token) =>
        Removes(s.rows, after.rows, (id, x: Session) => x.token == token) && after == s.(rows := after.rows)
      case RevokeUser(user) =>
        Removes(s.rows, after.rows, (id, x: Session) => x.user == user) && after == s.(rows := after.rows)
      case RevokeSession(user, session) =>
        && Removes(s.rows, after.rows, (id, x: Session) => x.user == user && id == session)
        && after == s.(rows := after.rows)
  {
    if op.Tidy? {
      MaintainedExactly(s.rows, op.user, op.now, LimitOf(cfg, op.demo));
    }
    hide Maintained, KeepsMostRecent, Issued, AfterRotate, AfterLoad;
  }
}
