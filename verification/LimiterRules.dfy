/** The sliding-window limiter as it would be with a full history: nothing is ever pruned or swept. */
module LimiterRules {
  import opened Wrappers

  /** A bucket: a client address on a route, the same with an e-mail, or a client of the demo login. */
  datatype Key = Ip(route: string, ip: string) | EmailIp(route: string, ip: string, email: string) | Demo(ip: string)

  datatype Config = Config(maxEmail: int, maxIp: int, window: real)

  const DEMO_WINDOW := 60.0
  const DEMO_MAX := 10
  const SWEEP_INTERVAL := 60.0

  function WindowOf(cfg: Config, k: Key): real {
    if k.Demo? then DEMO_WINDOW else cfg.window
  }

  function MaxOf(cfg: Config, k: Key): int {
    match k
    case Ip(_, _) => cfg.maxIp
    case EmailIp(_, _, _) => cfg.maxEmail
    case Demo(_) => DEMO_MAX
  }

  type Stamps = map<Key, seq<real>>

  function At(h: Stamps, k: Key): seq<real> {
    if k in h then h[k] else []
  }

  /** The stamps still inside the window that ends now. */
  function Recent(s: seq<real>, now: real, window: real): seq<real> {
    if s == [] then []
    else Recent(s[..|s| - 1], now, window) + if now - s[|s| - 1] < window then [s[|s| - 1]] else []
  }

  predicate Ordered(s: seq<real>) {
    forall i, j | 0 <= i < j < |s| :: s[i] <= s[j]
  }

  /** In order of time, the recent stamps are the last ones. */
  lemma {:induction false} RecentIsTail(s: seq<real>, now: real, window: real)
    requires Ordered(s)
    ensures var n := |Recent(s, now, window)|;
      n <= |s| && Recent(s, now, window) == s[|s| - n..] && (forall i | 0 <= i < |s| - n :: window <= now - s[i])
    ensures forall i | 0 <= i < |s| && now - s[i] < window :: |s| - i <= |Recent(s, now, window)|
  {
    if s != [] {
      RecentIsTail(s[..|s| - 1], now, window);
      if now - s[|s| - 1] >= window {
        RecentNone(s, now, window);
      }
    }
  }

  /** What is out of the window in the front of a list makes no difference. */
  lemma {:induction false} RecentSkips(old': seq<real>, s: seq<real>, now: real, window: real)
    requires forall i | 0 <= i < |old'| :: window <= now - old'[i]
    ensures Recent(old' + s, now, window) == Recent(s, now, window)
  {
    if s == [] {
      assert old' + s == old';
      RecentNone(old', now, window);
    } else {
      assert (old' + s)[..|old' + s| - 1] == old' + s[..|s| - 1];
      RecentSkips(old', s[..|s| - 1], now, window);
    }
  }

  lemma {:induction false} RecentNone(s: seq<real>, now: real, window: real)
    requires forall i | 0 <= i < |s| :: window <= now - s[i]
    ensures Recent(s, now, window) == []
  {
    if s != [] {
      RecentNone(s[..|s| - 1], now, window);
    }
  }

  // ---------------------------------------------------------------- requests

  /** An empty `email` is a request without one. */
  datatype Request = Auth(route: string, ip: string, email: string) | DemoLogin(ip: string)

  predicate Admits(cfg: Config, h: Stamps, k: Key, now: real) {
    MaxOf(cfg, k) <= 0 || |Recent(At(h, k), now, WindowOf(cfg, k))| < MaxOf(cfg, k)
  }

  /** A bucket that counts remembers what it admits. */
  function Passed(cfg: Config, h: Stamps, k: Key, now: real): Stamps {
    if MaxOf(cfg, k) > 0 && Admits(cfg, h, k, now) then h[k := At(h, k) + [now]] else h
  }

  predicate IsOff(cfg: Config) {
    (cfg.maxEmail <= 0 && cfg.maxIp <= 0) || cfg.window <= 0.0
  }

  /** The buckets a request goes through, in order. */
  function BucketsOf(cfg: Config, r: Request): seq<Key> {
    match r
    case DemoLogin(ip) => [Demo(ip)]
    case Auth(route, ip, email) =>
      if IsOff(cfg) then [] else [Ip(route, ip)] + if email != "" then [EmailIp(route, ip, email)] else []
  }

  /** A request passes the buckets one by one until one refuses; the earlier ones keep it counted. */
  function Answer(cfg: Config, h: Stamps, ks: seq<Key>, now: real): (bool, Stamps)
    decreases |ks|
  {
    if ks == [] then (true, h)
    else if !Admits(cfg, h, ks[0], now) then (false, h)
    else Answer(cfg, Passed(cfg, h, ks[0], now), ks[1..], now)
  }

  datatype Event = Event(request: Request, now: real)

  function HistoryAfter(cfg: Config, run: seq<Event>): Stamps {
    if run == [] then map[]
    else
      var e := run[|run| - 1];
      Answer(cfg, HistoryAfter(cfg, run[..|run| - 1]), BucketsOf(cfg, e.request), e.now).1
  }

  predicate ClockRuns(run: seq<Event>) {
    forall i, j | 0 <= i < j < |run| :: run[i].now <= run[j].now
  }

  // ---------------------------------------------------------------- the bound

  /** Any two stamps with `max` others between them are a window apart. */
  predicate Spaced(s: seq<real>, max: int, window: real) {
    Ordered(s) && forall i, j | 0 <= i <= j < |s| && i + max <= j :: window <= s[j] - s[i]
  }

  predicate UpTo(s: seq<real>, now: real) {
    forall i | 0 <= i < |s| :: s[i] <= now
  }

  ghost predicate Sound(cfg: Config, h: Stamps, now: real) {
    forall k | k in h :: MaxOf(cfg, k) > 0 && Spaced(h[k], MaxOf(cfg, k), WindowOf(cfg, k)) && UpTo(h[k], now)
  }

  lemma SpacedGrows(s: seq<real>, max: int, window: real, now: real)
    requires max > 0 && Spaced(s, max, window) && UpTo(s, now) && |Recent(s, now, window)| < max
    ensures Spaced(s + [now], max, window) && UpTo(s + [now], now)
  {
    RecentIsTail(s, now, window);
  }

  lemma {:induction false} AnswerKeepsSound(cfg: Config, h: Stamps, ks: seq<Key>, now: real)
    requires Sound(cfg, h, now)
    ensures Sound(cfg, Answer(cfg, h, ks, now).1, now)
    decreases |ks|
  {
    if ks != [] && Admits(cfg, h, ks[0], now) {
      var k := ks[0];
      var next := Passed(cfg, h, k, now);
      if MaxOf(cfg, k) > 0 {
        SpacedGrows(At(h, k), MaxOf(cfg, k), WindowOf(cfg, k), now);
      }
      assert forall j | j in next && j != k :: next[j] == h[j];
      AnswerKeepsSound(cfg, next, ks[1..], now);
    }
  }

  lemma SoundLater(cfg: Config, h: Stamps, now: real, later: real)
    requires Sound(cfg, h, now) && now <= later
    ensures Sound(cfg, h, later)
  {
    forall k | k in h ensures UpTo(h[k], later) {
      assert UpTo(h[k], now);
    }
  }

  lemma {:induction false} RunIsSound(cfg: Config, run: seq<Event>, now: real)
    requires ClockRuns(run) && forall e | e in run :: e.now <= now
    ensures Sound(cfg, HistoryAfter(cfg, run), now)
  {
    if run != [] {
      var n := |run| - 1;
      RunIsSound(cfg, run[..n], run[n].now);
      AnswerKeepsSound(cfg, HistoryAfter(cfg, run[..n]), BucketsOf(cfg, run[n].request), run[n].now);
      SoundLater(cfg, HistoryAfter(cfg, run), run[n].now, now);
    }
  }

  /** How many stamps fall in [from, till). */
  function CountIn(s: seq<real>, from: real, till: real): nat {
    if s == [] then 0 else CountIn(s[..|s| - 1], from, till) + if from <= s[|s| - 1] < till then 1 else 0
  }

  lemma {:induction false} CountSplits(a: seq<real>, b: seq<real>, from: real, till: real)
    ensures CountIn(a + b, from, till) == CountIn(a, from, till) + CountIn(b, from, till)
  {
    if b == [] {
      assert a + b == a;
    } else {
      assert (a + b)[..|a + b| - 1] == a + b[..|b| - 1];
      CountSplits(a, b[..|b| - 1], from, till);
    }
  }

  lemma {:induction false} CountFits(s: seq<real>, from: real, till: real)
    ensures CountIn(s, from, till) <= |s|
    ensures (forall i | 0 <= i < |s| :: s[i] < from) ==> CountIn(s, from, till) == 0
  {
    if s != [] {
      CountFits(s[..|s| - 1], from, till);
    }
  }

  lemma LastInWindow(s: seq<real>, max: int, window: real, from: real)
    requires 0 < max < |s| && Spaced(s, max, window) && from <= s[|s| - 1] < from + window
    ensures CountIn(s, from, from + window) <= max
  {
    hide CountIn;
    var cut := |s| - max;
    assert s == s[..cut] + s[cut..];
    forall i | 0 <= i < cut ensures s[..cut][i] < from {
      assert window <= s[|s| - 1] - s[i];
    }
    CountSplits(s[..cut], s[cut..], from, from + window);
    CountFits(s[..cut], from, from + window);
    CountFits(s[cut..], from, from + window);
  }

  lemma {:induction false} SpacedIsSparse(s: seq<real>, max: int, window: real, from: real)
    requires max > 0 && Spaced(s, max, window)
    ensures CountIn(s, from, from + window) <= max
  {
    if |s| <= max {
      CountFits(s, from, from + window);
    } else {
      var n := |s| - 1;
      if from <= s[n] < from + window {
        LastInWindow(s, max, window, from);
      } else {
        SpacedIsSparse(s[..n], max, window, from);
      }
    }
  }

  /**
   * Over every run, no bucket that counts admits more than its maximum in any half-open stretch of its window's
   * length.
   */
  lemma AtMostMax(cfg: Config, run: seq<Event>, k: Key, from: real)
    requires ClockRuns(run) && MaxOf(cfg, k) > 0
    ensures CountIn(At(HistoryAfter(cfg, run), k), from, from + WindowOf(cfg, k)) <= MaxOf(cfg, k)
  {
    if run != [] {
      RunIsSound(cfg, run, run[|run| - 1].now);
    }
    SpacedIsSparse(At(HistoryAfter(cfg, run), k), MaxOf(cfg, k), WindowOf(cfg, k), from);
  }

  // ---------------------------------------------------------------- the hint given with a refusal

  /** Seconds until the oldest counted stamp leaves the window. */
  function Remaining(oldest: real, now: real, window: real): real {
    window - (now - oldest)
  }

  /** `Retry-After`: the remaining time cut to whole seconds, at least one. */
  function RetryAfter(oldest: real, now: real, window: real): (r: int)
    ensures 1 <= r
  {
    var whole := Remaining(oldest, now, window).Floor;
    if whole < 1 then 1 else whole
  }

  /** A full bucket counts exactly its maximum. */
  lemma FullIsExact(s: seq<real>, max: int, window: real, now: real)
    requires max > 0 && window > 0.0 && Spaced(s, max, window) && UpTo(s, now) && |Recent(s, now, window)| >= max
    ensures |Recent(s, now, window)| == max <= |s| && Recent(s, now, window)[0] == s[|s| - max]
    ensures now - s[|s| - max] < window
  {
    RecentIsTail(s, now, window);
    var n := |Recent(s, now, window)|;
    StillRecent(s, now, window);
    assert Recent(s, now, window)[0] in Recent(s, now, window);
  }

  lemma {:induction false} StillRecent(s: seq<real>, now: real, window: real)
    ensures forall t | t in Recent(s, now, window) :: now - t < window
  {
    if s != [] {
      StillRecent(s[..|s| - 1], now, window);
    }
  }

  /**
   * Waiting as told is enough exactly when the remaining time is whole seconds or at most one second; otherwise the
   * cut makes it too short.
   */
  lemma RetryAdmitsExactly(s: seq<real>, max: int, window: real, now: real)
    requires max > 0 && window > 0.0 && Spaced(s, max, window) && UpTo(s, now) && |Recent(s, now, window)| >= max
    ensures var left := Remaining(Recent(s, now, window)[0], now, window);
      var later := now + RetryAfter(Recent(s, now, window)[0], now, window) as real;
      |Recent(s, later, window)| < max <==> left <= 1.0 || left == left.Floor as real
  {
    FullIsExact(s, max, window, now);
    var oldest := s[|s| - max];
    var later := now + RetryAfter(oldest, now, window) as real;
    assert UpTo(s, later);
    RecentIsTail(s, later, window);
    if |Recent(s, later, window)| >= max {
      FullIsExact(s, max, window, later);
    }
  }

  /** The hint of a bucket that refuses. */
  function HintOf(cfg: Config, h: Stamps, k: Key, now: real): int
    requires !Admits(cfg, h, k, now)
  {
    RetryAfter(Recent(At(h, k), now, WindowOf(cfg, k))[0], now, WindowOf(cfg, k))
  }

  /** The hint a refused request gets: that of the first bucket on its way that refuses. */
  function Refusal(cfg: Config, h: Stamps, ks: seq<Key>, now: real): (r: Option<int>)
    ensures r.Some? <==> !Answer(cfg, h, ks, now).0
    ensures r.Some? ==> 1 <= r.value
    decreases |ks|
  {
    if ks == [] then None
    else if !Admits(cfg, h, ks[0], now) then Some(HintOf(cfg, h, ks[0], now))
    else Refusal(cfg, Passed(cfg, h, ks[0], now), ks[1..], now)
  }

  const ONE_PER_MINUTE := Config(1, 1, 60.0)
  const ATTEMPT := Auth("login", "10.0.0.1", "")

  /**
   * One attempt at time 0 where a minute allows one: at 0.5 the next is told to wait 59 seconds, and at 59.5 it is
   * refused again.
   */
  lemma RetryTooEarly()
    ensures var h := HistoryAfter(ONE_PER_MINUTE, [Event(ATTEMPT, 0.0)]);
      && Refusal(ONE_PER_MINUTE, h, BucketsOf(ONE_PER_MINUTE, ATTEMPT), 0.5) == Some(59)
      && !Answer(ONE_PER_MINUTE, h, BucketsOf(ONE_PER_MINUTE, ATTEMPT), 0.5 + 59.0).0
  {
    var (cfg, k, run) := (ONE_PER_MINUTE, Ip("login", "10.0.0.1"), [Event(ATTEMPT, 0.0)]);
    var none: Stamps := map[];
    assert BucketsOf(cfg, ATTEMPT) == [k] && [k][1..] == [];
    assert Admits(cfg, none, k, 0.0) && At(none, k) + [0.0] == [0.0];
    assert Passed(cfg, none, k, 0.0) == none[k := [0.0]];
    assert Answer(cfg, none, [k], 0.0) == Answer(cfg, none[k := [0.0]], [], 0.0);
    assert run[..0] == [] && HistoryAfter(cfg, []) == none;
    assert HistoryAfter(cfg, run) == none[k := [0.0]];
    assert [0.0][..0] == [] && Recent([0.0], 0.5, 60.0) == [0.0] && Recent([0.0], 59.5, 60.0) == [0.0];
  }
}
