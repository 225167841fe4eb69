/** What the limiter answers, told over the stamps it has admitted, the settings and the clock. */
module LimiterOutcome {
  import opened Wrappers
  import opened LimiterRules
  import opened RateLimiter

  ghost function LastOnes(s: seq<real>, now: real, window: real): set<int> {
    set i | 0 <= i < |s| && now < s[i] + window
  }

  /** How many stamps are younger than the window. */
  ghost function InLast(s: seq<real>, now: real, window: real): nat {
    |LastOnes(s, now, window)|
  }

  lemma {:induction false} RecentCounts(s: seq<real>, now: real, window: real)
    ensures |Recent(s, now, window)| == InLast(s, now, window)
  {
    if s == [] {
      assert LastOnes(s, now, window) == {};
    } else {
      var n := |s| - 1;
      RecentCounts(s[..n], now, window);
      var rest := LastOnes(s[..n], now, window);
      assert n !in rest;
      assert LastOnes(s, now, window) == if now < s[n] + window then rest + {n} else rest;
    }
  }

  /** Neither bucket counts, or there is no window. */
  predicate IsSwitchedOff(cfg: Config) {
    cfg.window <= 0.0 || (cfg.maxIp <= 0 && cfg.maxEmail <= 0)
  }

  /** A maximum of nought or less lets everything through. */
  ghost predicate HasRoom(s: seq<real>, max: int, window: real, now: real) {
    0 < max ==> InLast(s, now, window) < max
  }

  /** The bucket gets the stamp, or stays as it was. */
  predicate Stamps(h: Stamps, after: Stamps, k: Key, now: real, stamped: bool) {
    At(after, k) == if stamped then At(h, k) + [now] else At(h, k)
  }

  lemma BucketExactly(cfg: Config, h: Stamps, k: Key, now: real)
    ensures Admits(cfg, h, k, now) <==> HasRoom(At(h, k), MaxOf(cfg, k), WindowOf(cfg, k), now)
    ensures Stamps(h, Passed(cfg, h, k, now), k, now,
                   0 < MaxOf(cfg, k) && HasRoom(At(h, k), MaxOf(cfg, k), WindowOf(cfg, k), now))
    ensures forall j | j != k :: At(Passed(cfg, h, k, now), j) == At(h, j)
  {
    RecentCounts(At(h, k), now, WindowOf(cfg, k));
    hide Recent, LastOnes;
  }

  /**
   * An authentication attempt passes exactly when the address on that route has room and, with an e-mail, so has the
   * address with the e-mail; a counting bucket that had room keeps the stamp even when the next one refuses.
   */
  lemma AttemptExactly(cfg: Config, h: Stamps, route: string, ip: string, email: string, now: real)
    ensures var (ok, after) := Answer(cfg, h, BucketsOf(cfg, Auth(route, ip, email)), now);
      var byIp := HasRoom(At(h, Ip(route, ip)), cfg.maxIp, cfg.window, now);
      var byEmail := email == "" || HasRoom(At(h, EmailIp(route, ip, email)), cfg.maxEmail, cfg.window, now);
      && (ok <==> IsSwitchedOff(cfg) || (byIp && byEmail))
      && Stamps(h, after, Ip(route, ip), now, !IsSwitchedOff(cfg) && 0 < cfg.maxIp && byIp)
      && Stamps(h, after, EmailIp(route, ip, email), now,
                !IsSwitchedOff(cfg) && email != "" && 0 < cfg.maxEmail && byIp && byEmail)
      && forall k | k != Ip(route, ip) && k != EmailIp(route, ip, email) :: At(after, k) == At(h, k)
  {
    var (k, l) := (Ip(route, ip), EmailIp(route, ip, email));
    if !IsSwitchedOff(cfg) {
      BucketExactly(cfg, h, k, now);
      BucketExactly(cfg, Passed(cfg, h, k, now), l, now);
      OneBucket(cfg, h, k, now);
      OneBucket(cfg, Passed(cfg, h, k, now), l, now);
      TwoBuckets(cfg, h, k, l, now);
      assert BucketsOf(cfg, Auth(route, ip, email)) == if email == "" then [k] else [k, l];
    } else {
      Nothing(cfg, h, now);
    }
    hide Admits, Passed, Answer, InLast;
  }

  /** A demo login passes exactly when its address had fewer than ten in the last minute, whatever the settings. */
  lemma DemoExactly(cfg: Config, h: Stamps, ip: string, now: real)
    ensures var (ok, after) := Answer(cfg, h, BucketsOf(cfg, DemoLogin(ip)), now);
      && (ok <==> InLast(At(h, Demo(ip)), now, 60.0) < 10)
      && Stamps(h, after, Demo(ip), now, ok)
      && forall k | k != Demo(ip) :: At(after, k) == At(h, k)
  {
    BucketExactly(cfg, h, Demo(ip), now);
    OneBucket(cfg, h, Demo(ip), now);
    hide Admits, Passed, Answer, InLast;
  }

  /** The seconds until the oldest stamp still counted is a window old, cut to whole ones, and at least one. */
  predicate IsHintFor(s: seq<real>, now: real, window: real, hint: int, i: int) {
    && 0 <= i < |s| && now < s[i] + window && (forall j | 0 <= j < i :: s[j] + window <= now)
    && 1 <= hint && (hint == 1 || hint as real <= s[i] + window - now) && s[i] + window - now < (hint + 1) as real
  }

  ghost predicate IsHint(s: seq<real>, now: real, window: real, hint: int) {
    exists i :: IsHintFor(s, now, window, hint, i)
  }

  lemma {:induction false} OldestRecent(s: seq<real>, now: real, window: real) returns (i: nat)
    requires Recent(s, now, window) != []
    ensures i < |s| && s[i] == Recent(s, now, window)[0] && now < s[i] + window
    ensures forall j | 0 <= j < i :: s[j] + window <= now
  {
    var n := |s| - 1;
    if Recent(s[..n], now, window) != [] {
      i := OldestRecent(s[..n], now, window);
    } else {
      i := n;
      forall j | 0 <= j < n ensures s[j] + window <= now {
        NoneRecent(s[..n], now, window, j);
      }
    }
  }

  lemma {:induction false} NoneRecent(s: seq<real>, now: real, window: real, j: nat)
    requires Recent(s, now, window) == [] && j < |s|
    ensures s[j] + window <= now
  {
    if j < |s| - 1 {
      NoneRecent(s[..|s| - 1], now, window, j);
    }
  }

  lemma HintExactly(cfg: Config, h: Stamps, k: Key, now: real)
    requires !Admits(cfg, h, k, now)
    ensures IsHint(At(h, k), now, WindowOf(cfg, k), HintOf(cfg, h, k, now))
  {
    var i := OldestRecent(At(h, k), now, WindowOf(cfg, k));
    assert IsHintFor(At(h, k), now, WindowOf(cfg, k), HintOf(cfg, h, k, now), i);
  }

  /** A refused attempt is told when the address bucket frees up, or the e-mail one when the address had room. */
  lemma RefusedHintExactly(cfg: Config, h: Stamps, route: string, ip: string, email: string, now: real)
    requires Refusal(cfg, h, BucketsOf(cfg, Auth(route, ip, email)), now).Some?
    ensures var hint := Refusal(cfg, h, BucketsOf(cfg, Auth(route, ip, email)), now).value;
      if !HasRoom(At(h, Ip(route, ip)), cfg.maxIp, cfg.window, now)
      then IsHint(At(h, Ip(route, ip)), now, cfg.window, hint)
      else IsHint(At(h, EmailIp(route, ip, email)), now, cfg.window, hint)
  {
    var (k, l) := (Ip(route, ip), EmailIp(route, ip, email));
    var ks := BucketsOf(cfg, Auth(route, ip, email));
    assert ks == [k] || ks == [k, l];
    BucketExactly(cfg, h, k, now);
    BucketExactly(cfg, Passed(cfg, h, k, now), l, now);
    OneBucket(cfg, h, k, now);
    OneBucket(cfg, Passed(cfg, h, k, now), l, now);
    TwoBuckets(cfg, h, k, l, now);
    hide Passed, Refusal, InLast, HintOf, IsHint;
    if !Admits(cfg, h, k, now) {
      HintExactly(cfg, h, k, now);
    } else if !Admits(cfg, Passed(cfg, h, k, now), l, now) {
      HintExactly(cfg, Passed(cfg, h, k, now), l, now);
    }
  }

  // ---------------------------------------------------------------- sweeping, and a whole run

  /** A sweep leaves exactly the keys with a stamp younger than the window, and their lists as they were. */
  lemma SweptExactly(hits: Stamps, window: real, now: real, left: Stamps, k: Key)
    requires IsSwept(hits, window, now, left) && (k in hits ==> Ordered(hits[k]))
    ensures k in left <==> k in hits && InLast(hits[k], now, window) > 0
    ensures k in left ==> left[k] == hits[k]
  {
    if k in hits && hits[k] != [] {
      var last := |hits[k]| - 1;
      if now < hits[k][last] + window {
        assert last in LastOnes(hits[k], now, window);
      } else {
        assert LastOnes(hits[k], now, window) == {};
      }
    }
  }

  /**
   * Every answer of a run: an attempt passes exactly when its buckets had room after the requests before it, a demo
   * login when its address had fewer than ten in the last minute.
   */
  lemma ServedExactly(cfg: Config, run: seq<Event>, answers: seq<bool>, i: nat)
    requires AnsweredInFull(cfg, run, answers) && i < |run|
    ensures |answers| == |run|
    ensures var (h, now) := (HistoryAfter(cfg, run[..i]), run[i].now);
      match run[i].request
      case DemoLogin(ip) => answers[i] <==> InLast(At(h, Demo(ip)), now, 60.0) < 10
      case Auth(route, ip, email) => answers[i] <==>
        || IsSwitchedOff(cfg)
        || (&& HasRoom(At(h, Ip(route, ip)), cfg.maxIp, cfg.window, now)
            && (email == "" || HasRoom(At(h, EmailIp(route, ip, email)), cfg.maxEmail, cfg.window, now)))
  {
    var (h, now) := (HistoryAfter(cfg, run[..i]), run[i].now);
    match run[i].request
    case DemoLogin(ip) => DemoExactly(cfg, h, ip, now);
    case Auth(route, ip, email) => AttemptExactly(cfg, h, route, ip, email, now);
  }
}
