/** The in-memory limiter: pruned stamp lists in two dictionaries, and a sweep that drops idle keys. */
module RateLimiter {
  import opened Wrappers
  import opened LimiterRules

  /** A kept list is the history less a front that has left the window for good. */
  ghost predicate Keeps(kept: seq<real>, all: seq<real>, window: real, clock: real) {
    && |kept| <= |all| && all[|all| - |kept|..] == kept && Ordered(all)
    && forall i | 0 <= i < |all| - |kept| :: window <= clock - all[i]
  }

  /** At any later time both lists show the same recent stamps. */
  lemma KeepsRecent(kept: seq<real>, all: seq<real>, window: real, clock: real, now: real)
    requires Keeps(kept, all, window, clock) && clock <= now
    ensures Recent(kept, now, window) == Recent(all, now, window)
    ensures Keeps(Recent(kept, now, window), all, window, now)
  {
    var cut := |all| - |kept|;
    assert all == all[..cut] + kept;
    RecentSkips(all[..cut], kept, now, window);
    RecentIsTail(all, now, window);
  }

  lemma KeepsLater(kept: seq<real>, all: seq<real>, window: real, clock: real, now: real)
    requires Keeps(kept, all, window, clock) && clock <= now
    ensures Keeps(kept, all, window, now)
  {
  }

  lemma KeepsMore(kept: seq<real>, all: seq<real>, window: real, now: real)
    requires Keeps(kept, all, window, now) && UpTo(all, now)
    ensures Keeps(kept + [now], all + [now], window, now)
  {
  }

  /** A key whose last stamp has left the window holds nothing recent. */
  lemma IdleKeepsNothing(kept: seq<real>, all: seq<real>, window: real, now: real)
    requires Keeps(kept, all, window, now)
    requires kept == [] || window <= now - kept[|kept| - 1]
    ensures Keeps([], all, window, now)
  {
  }

  predicate IsIdle(s: seq<real>, window: real, now: real) {
    s == [] || window <= now - s[|s| - 1]
  }

  method Prune(s: seq<real>, now: real, window: real) returns (recent: seq<real>)
    ensures recent == Recent(s, now, window)
  {
    recent := [];
    for i := 0 to |s|
      invariant recent == Recent(s[..i], now, window)
    {
      assert s[..i + 1][..i] == s[..i];
      if now - s[i] < window {
        recent := recent + [s[i]];
      }
    }
    assert s[..|s|] == s;
  }

  /** Delete the idle keys of one dictionary. */
  method DropIdle(hits: Stamps, window: real, now: real) returns (left: Stamps)
    ensures forall k :: k in left <==> k in hits && !IsIdle(hits[k], window, now)
    ensures forall k | k in left :: left[k] == hits[k]
  {
    left := hits;
    var keys := Elements(hits.Keys);
    for i := 0 to |keys|
      invariant forall k :: k in left <==> k in hits && !(k in keys[..i] && IsIdle(hits[k], window, now))
      invariant forall k | k in left :: left[k] == hits[k]
    {
      assert keys[i] in keys && keys[..i + 1] == keys[..i] + [keys[i]];
      if IsIdle(hits[keys[i]], window, now) {
        left := map k | k in left && k != keys[i] :: left[k];
      }
    }
    assert keys[..|keys|] == keys;
  }

  function HitsOf(auth: Stamps, demo: Stamps, k: Key): seq<real> {
    if k.Demo? then At(demo, k) else At(auth, k)
  }

  /** The two dictionaries stand for the full history as far as anyone can still see. */
  ghost predicate StandsFor(cfg: Config, auth: Stamps, demo: Stamps, history: Stamps, clock: real) {
    Sound(cfg, history, clock) && forall k :: Keeps(HitsOf(auth, demo, k), At(history, k), WindowOf(cfg, k), clock)
  }

  lemma StandsLater(cfg: Config, auth: Stamps, demo: Stamps, history: Stamps, clock: real, now: real)
    requires StandsFor(cfg, auth, demo, history, clock) && clock <= now
    ensures StandsFor(cfg, auth, demo, history, now)
  {
    SoundLater(cfg, history, clock, now);
    forall k ensures Keeps(HitsOf(auth, demo, k), At(history, k), WindowOf(cfg, k), now) {
      KeepsLater(HitsOf(auth, demo, k), At(history, k), WindowOf(cfg, k), clock, now);
    }
  }

  ghost predicate IsSwept(hits: Stamps, window: real, now: real, left: Stamps) {
    && (forall k :: k in left <==> k in hits && !IsIdle(hits[k], window, now))
    && (forall k | k in left :: left[k] == hits[k])
  }

  lemma SweptKey(kept: seq<real>, left: seq<real>, all: seq<real>, window: real, now: real)
    requires Keeps(kept, all, window, now) && left == if IsIdle(kept, window, now) then [] else kept
    ensures Keeps(left, all, window, now)
  {
    if IsIdle(kept, window, now) {
      IdleKeepsNothing(kept, all, window, now);
    }
  }

  /** Dropping idle keys loses nothing anyone can still see. */
  lemma SweptStands(cfg: Config, auth: Stamps, demo: Stamps, history: Stamps, now: real, auth': Stamps, demo': Stamps)
    requires StandsFor(cfg, auth, demo, history, now)
    requires IsSwept(auth, cfg.window, now, auth') && IsSwept(demo, DEMO_WINDOW, now, demo')
    ensures StandsFor(cfg, auth', demo', history, now)
  {
    hide Sound, Keeps;
    forall k ensures Keeps(HitsOf(auth', demo', k), At(history, k), WindowOf(cfg, k), now) {
      assert Keeps(HitsOf(auth, demo, k), At(history, k), WindowOf(cfg, k), now);
      SweptKey(HitsOf(auth, demo, k), HitsOf(auth', demo', k), At(history, k), WindowOf(cfg, k), now);
    }
  }

  function Put(auth: Stamps, demo: Stamps, k: Key, s: seq<real>): (Stamps, Stamps) {
    if k.Demo? then (auth, demo[k := s]) else (auth[k := s], demo)
  }

  lemma CheckedList(kept: seq<real>, all: seq<real>, max: int, window: real, now: real, s: seq<real>)
    requires Keeps(kept, all, window, now) && UpTo(all, now)
    requires s ==
      if |Recent(kept, now, window)| < max then Recent(kept, now, window) + [now] else Recent(kept, now, window)
    ensures Recent(kept, now, window) == Recent(all, now, window)
    ensures Keeps(s, if |Recent(all, now, window)| < max then all + [now] else all, window, now)
  {
    KeepsRecent(kept, all, window, now, now);
    hide Recent, Keeps;
    if |Recent(kept, now, window)| < max {
      KeepsMore(Recent(kept, now, window), all, window, now);
    }
  }

  lemma PassedAt(cfg: Config, h: Stamps, k: Key, now: real)
    requires MaxOf(cfg, k) > 0
    ensures At(Passed(cfg, h, k, now), k)
      == if |Recent(At(h, k), now, WindowOf(cfg, k))| < MaxOf(cfg, k) then At(h, k) + [now] else At(h, k)
  {
    hide Recent;
  }

  lemma CheckedKey(cfg: Config, kept: seq<real>, history: Stamps, now: real, k: Key, s: seq<real>)
    requires Sound(cfg, history, now) && MaxOf(cfg, k) > 0 && Keeps(kept, At(history, k), WindowOf(cfg, k), now)
    requires var recent := Recent(kept, now, WindowOf(cfg, k));
      s == if |recent| < MaxOf(cfg, k) then recent + [now] else recent
    ensures Recent(kept, now, WindowOf(cfg, k)) == Recent(At(history, k), now, WindowOf(cfg, k))
    ensures Keeps(s, At(Passed(cfg, history, k, now), k), WindowOf(cfg, k), now)
  {
    hide *;
    StampsSoFar(cfg, history, k, now);
    PassedAt(cfg, history, k, now);
    CheckedList(kept, At(history, k), MaxOf(cfg, k), WindowOf(cfg, k), now, s);
  }

  lemma PassedSound(cfg: Config, h: Stamps, k: Key, now: real)
    requires Sound(cfg, h, now)
    ensures Sound(cfg, Passed(cfg, h, k, now), now)
    ensures forall j | j != k :: At(Passed(cfg, h, k, now), j) == At(h, j)
  {
    AnswerKeepsSound(cfg, h, [k], now);
    OneBucket(cfg, h, k, now);
  }

  /** Writing the pruned list back, with the new stamp when it is admitted. */
  lemma CheckedStands(cfg: Config, auth: Stamps, demo: Stamps, history: Stamps, now: real, k: Key, s: seq<real>)
    requires StandsFor(cfg, auth, demo, history, now) && MaxOf(cfg, k) > 0
    requires var recent := Recent(HitsOf(auth, demo, k), now, WindowOf(cfg, k));
      s == if |recent| < MaxOf(cfg, k) then recent + [now] else recent
    ensures Recent(HitsOf(auth, demo, k), now, WindowOf(cfg, k)) == Recent(At(history, k), now, WindowOf(cfg, k))
    ensures var (auth', demo') := Put(auth, demo, k, s);
      StandsFor(cfg, auth', demo', Passed(cfg, history, k, now), now)
  {
    hide Sound, Recent, Keeps, Passed;
    var (auth', demo') := Put(auth, demo, k, s);
    assert Keeps(HitsOf(auth, demo, k), At(history, k), WindowOf(cfg, k), now);
    CheckedKey(cfg, HitsOf(auth, demo, k), history, now, k, s);
    PassedSound(cfg, history, k, now);
    forall j ensures Keeps(HitsOf(auth', demo', j), At(Passed(cfg, history, k, now), j), WindowOf(cfg, j), now) {
      assert Keeps(HitsOf(auth, demo, j), At(history, j), WindowOf(cfg, j), now);
    }
  }

  lemma StampsSoFar(cfg: Config, h: Stamps, k: Key, now: real)
    requires Sound(cfg, h, now)
    ensures UpTo(At(h, k), now)
  {
  }

  lemma OneBucket(cfg: Config, h: Stamps, k: Key, now: real)
    ensures Answer(cfg, h, [k], now) == if Admits(cfg, h, k, now) then (true, Passed(cfg, h, k, now)) else (false, h)
    ensures Refusal(cfg, h, [k], now) == if Admits(cfg, h, k, now) then None else Some(HintOf(cfg, h, k, now))
    ensures !Admits(cfg, h, k, now) ==> Passed(cfg, h, k, now) == h
  {
    assert [k][1..] == [];
  }

  lemma TwoBuckets(cfg: Config, h: Stamps, k: Key, l: Key, now: real)
    ensures Answer(cfg, h, [k, l], now)
      == if Admits(cfg, h, k, now) then Answer(cfg, Passed(cfg, h, k, now), [l], now) else (false, h)
    ensures Refusal(cfg, h, [k, l], now)
      == if Admits(cfg, h, k, now) then Refusal(cfg, Passed(cfg, h, k, now), [l], now) else Some(HintOf(cfg, h, k, now))
  {
    assert [k, l][1..] == [l];
  }

  class Limiter {
    const cfg: Config
    var authHits: Stamps
    var demoHits: Stamps
    var lastSweep: real
    /** Every stamp ever admitted, and the latest reading of the clock. */
    ghost var history: Stamps
    ghost var clock: real

    ghost predicate Valid()
      reads this
    {
      StandsFor(cfg, authHits, demoHits, history, clock)
    }

    constructor (c: Config)
      ensures Valid() && cfg == c && history == map[] && clock == 0.0
    {
      cfg := c;
      authHits, demoHits, lastSweep := map[], map[], 0.0;
      history, clock := map[], 0.0;
    }

    /** `_sweep_idle_rate_limit_keys`. */
    method Sweep(now: real)
      requires Valid() && clock == now
      modifies this`authHits, this`demoHits, this`lastSweep
      ensures Valid()
      ensures lastSweep == if now - old(lastSweep) < 60.0 then old(lastSweep) else now
      ensures now - old(lastSweep) < 60.0 ==> authHits == old(authHits) && demoHits == old(demoHits)
      // Otherwise exactly the keys with a stamp younger than their window are left.
      ensures 60.0 <= now - old(lastSweep) ==>
        && IsSwept(old(authHits), cfg.window, now, authHits) && IsSwept(old(demoHits), 60.0, now, demoHits)
    {
      hide StandsFor;
      if now - lastSweep < SWEEP_INTERVAL {
        return;
      }
      lastSweep := now;
      var auth := DropIdle(authHits, cfg.window, now);
      var demo := DropIdle(demoHits, DEMO_WINDOW, now);
      SweptStands(cfg, authHits, demoHits, history, now, auth, demo);
      authHits, demoHits := auth, demo;
    }

    /** One bucket: prune, then refuse with a hint or count. */
    method CheckBucket(k: Key, now: real) returns (ok: bool, retryAfter: int)
      requires Valid() && clock == now
      modifies this`authHits, this`demoHits, this`history
      ensures Valid()
      ensures ok <==> Admits(cfg, old(history), k, now)
      ensures history == Passed(cfg, old(history), k, now)
      ensures !ok ==> retryAfter == HintOf(cfg, old(history), k, now)
      // The touched key keeps its recent stamps only, every other key what it had.
      ensures MaxOf(cfg, k) <= 0 ==> authHits == old(authHits) && demoHits == old(demoHits)
      ensures 0 < MaxOf(cfg, k) ==> (
        var recent := Recent(HitsOf(old(authHits), old(demoHits), k), now, WindowOf(cfg, k));
        (authHits, demoHits) == Put(old(authHits), old(demoHits), k, if ok then recent + [now] else recent))
    {
      hide StandsFor, RetryAfter;
      if MaxOf(cfg, k) <= 0 {
        return true, 0;
      }
      var window := WindowOf(cfg, k);
      var recent := Prune(HitsOf(authHits, demoHits, k), now, window);
      ghost var s := if |recent| < MaxOf(cfg, k) then recent + [now] else recent;
      CheckedStands(cfg, authHits, demoHits, history, now, k, s);
      if |recent| >= MaxOf(cfg, k) {
        ok, retryAfter := false, RetryAfter(recent[0], now, window);
      } else {
        ok, retryAfter := true, 0;
        recent := recent + [now];
      }
      if k.Demo? {
        demoHits := demoHits[k := recent];
      } else {
        authHits := authHits[k := recent];
      }
      history := Passed(cfg, history, k, now);
    }

    /** `enforce_auth_rate_limit`: the address bucket first, then the one with the e-mail. */
    method Enforce(route: string, ip: string, email: string, now: real) returns (ok: bool, retryAfter: int)
      requires Valid() && clock <= now
      modifies this
      ensures Valid() && (clock == now || clock == old(clock))
      ensures (ok, history) == Answer(cfg, old(history), BucketsOf(cfg, Auth(route, ip, email)), now)
      ensures !ok ==> Refusal(cfg, old(history), BucketsOf(cfg, Auth(route, ip, email)), now) == Some(retryAfter)
    {
      hide StandsFor, Answer, Admits, Passed, Refusal, HintOf;
      if IsOff(cfg) {
        Nothing(cfg, history, now);
        return true, 0;
      }
      StandsLater(cfg, authHits, demoHits, history, clock, now);
      clock := now;
      Sweep(now);
      OneBucket(cfg, history, Ip(route, ip), now);
      ok, retryAfter := CheckBucket(Ip(route, ip), now);
      ghost var ks := BucketsOf(cfg, Auth(route, ip, email));
      assert ks == if email != "" then [Ip(route, ip), EmailIp(route, ip, email)] else [Ip(route, ip)];
      if email != "" {
        TwoBuckets(cfg, old(history), Ip(route, ip), EmailIp(route, ip, email), now);
        if ok {
          OneBucket(cfg, history, EmailIp(route, ip, email), now);
          ok, retryAfter := CheckBucket(EmailIp(route, ip, email), now);
        }
      }
    }

    /** `_demo_login_allowed`. */
    method AllowDemo(ip: string, now: real) returns (ok: bool)
      requires Valid() && clock <= now
      modifies this
      ensures Valid() && clock == now
      ensures (ok, history) == Answer(cfg, old(history), BucketsOf(cfg, DemoLogin(ip)), now)
    {
      hide StandsFor, Answer, Admits, Passed, Refusal, HintOf;
      StandsLater(cfg, authHits, demoHits, history, clock, now);
      clock := now;
      Sweep(now);
      OneBucket(cfg, history, Demo(ip), now);
      var retryAfter;
      ok, retryAfter := CheckBucket(Demo(ip), now);
    }

    method ServeOne(e: Event) returns (ok: bool)
      requires Valid() && clock <= e.now
      modifies this
      ensures Valid() && clock <= e.now
      ensures (ok, history) == Answer(cfg, old(history), BucketsOf(cfg, e.request), e.now)
    {
      hide *;
      match e.request {
        case Auth(route, ip, email) =>
          var retryAfter;
          ok, retryAfter := Enforce(route, ip, email, e.now);
        case DemoLogin(ip) =>
          ok := AllowDemo(ip, e.now);
      }
    }

    /** Any run of requests is answered, one by one, as with the full history. */
    method Serve(run: seq<Event>) returns (answers: seq<bool>)
      requires Valid() && history == map[] && ClockRuns(run) && forall e | e in run :: clock <= e.now
      modifies this
      ensures Valid() && history == HistoryAfter(cfg, run)
      ensures AnsweredInFull(cfg, run, answers)
    {
      answers := [];
      assert run[..0] == [];
      for i := 0 to |run|
        invariant Valid() && history == HistoryAfter(cfg, run[..i]) && forall j | i <= j < |run| :: clock <= run[j].now
        invariant |answers| == i && forall j | 0 <= j < i :: answers[j] == FullAnswer(cfg, run, j)
      {
        hide StandsFor, Answer, BucketsOf, HistoryAfter, FullAnswer;
        NextHistory(cfg, run, i);
        var ok := ServeOne(run[i]);
        answers := answers + [ok];
      }
      assert run[..|run|] == run;
    }
  }

  lemma NextHistory(cfg: Config, run: seq<Event>, i: nat)
    requires i < |run|
    ensures Answer(cfg, HistoryAfter(cfg, run[..i]), BucketsOf(cfg, run[i].request), run[i].now)
      == (FullAnswer(cfg, run, i), HistoryAfter(cfg, run[..i + 1]))
  {
    assert run[..i + 1][..i] == run[..i];
  }

  /** The answer of a limiter that remembers everything before request `i`. */
  function FullAnswer(cfg: Config, run: seq<Event>, i: nat): bool
    requires i < |run|
  {
    Answer(cfg, HistoryAfter(cfg, run[..i]), BucketsOf(cfg, run[i].request), run[i].now).0
  }

  predicate AnsweredInFull(cfg: Config, run: seq<Event>, answers: seq<bool>) {
    |answers| == |run| && forall i | 0 <= i < |run| :: answers[i] == FullAnswer(cfg, run, i)
  }

  /** A new limiter serving a run: pruning and sweeping show in no answer. */
  method ServeRun(cfg: Config, run: seq<Event>) returns (answers: seq<bool>)
    requires ClockRuns(run) && forall e | e in run :: 0.0 <= e.now
    ensures AnsweredInFull(cfg, run, answers)
  {
    var limiter := new Limiter(cfg);
    answers := limiter.Serve(run);
  }

  lemma Nothing(cfg: Config, h: Stamps, now: real)
    ensures Answer(cfg, h, [], now) == (true, h)
  {
  }
}
