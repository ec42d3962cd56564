/** The token-bucket rate limiter as a value. Tokens and times are exact reals. */
module LimiterSpec {
  type Key = string

  datatype Bucket = Bucket(tokens: real, last: real)

  datatype Config = Config(burst: real, refill: real, maxClients: nat)

  datatype Answer = Allowed | RetryAfter(wait: real)

  predicate Sane(cfg: Config) {
    cfg.refill > 0.0
  }

  /** Tokens gained over `d` seconds. */
  function Gain(cfg: Config, d: real): real {
    d * cfg.refill
  }

  lemma GainAdds(cfg: Config, a: real, b: real)
    ensures Gain(cfg, a + b) == Gain(cfg, a) + Gain(cfg, b)
  {
  }

  lemma GainGrows(cfg: Config, a: real, b: real)
    requires Sane(cfg) && a <= b
    ensures Gain(cfg, a) <= Gain(cfg, b)
    ensures Gain(cfg, 0.0) == 0.0
  {
    assert (b - a) * cfg.refill >= 0.0;
  }

  /** Tokens `b` holds at `now`; a clock behind the bucket adds none. */
  function Refilled(cfg: Config, b: Bucket, now: real): real {
    var elapsed := if now > b.last then now - b.last else 0.0;
    var tokens := b.tokens + Gain(cfg, elapsed);
    if tokens < cfg.burst then tokens else cfg.burst
  }

  /** Drops the fully refilled buckets when the map is full and `key` is new. */
  function Evict(cfg: Config, m: map<Key, Bucket>, key: Key, now: real): map<Key, Bucket> {
    if |m| >= cfg.maxClients && key !in m
    then map k | k in m && Refilled(cfg, m[k], now) < cfg.burst :: m[k]
    else m
  }

  /** One check with nothing evicted. */
  function CheckKept(cfg: Config, m: map<Key, Bucket>, key: Key, now: real): (map<Key, Bucket>, Answer)
    requires Sane(cfg)
  {
    var tokens := Refilled(cfg, if key in m then m[key] else Bucket(cfg.burst, now), now);
    if tokens >= 1.0 then (m[key := Bucket(tokens - 1.0, now)], Allowed)
    else (m[key := Bucket(tokens, now)], RetryAfter((1.0 - tokens) / cfg.refill))
  }

  function Check(cfg: Config, m: map<Key, Bucket>, key: Key, now: real): (map<Key, Bucket>, Answer)
    requires Sane(cfg)
  {
    CheckKept(cfg, Evict(cfg, m, key, now), key, now)
  }

  /** What `key` could spend at `t` if nothing else happened to it; an unknown key has a full bucket. */
  function Level(cfg: Config, m: map<Key, Bucket>, key: Key, t: real): real {
    if key in m then Refilled(cfg, m[key], t) else cfg.burst
  }

  predicate Before(m: map<Key, Bucket>, now: real) {
    forall k | k in m :: m[k].last <= now
  }

  function Capped(cfg: Config, x: real): real {
    if x < cfg.burst then x else cfg.burst
  }

  lemma RefillInSteps(cfg: Config, b: Bucket, now: real, t: real)
    requires Sane(cfg) && b.last <= now <= t
    ensures Refilled(cfg, b, t) == Capped(cfg, Refilled(cfg, b, now) + Gain(cfg, t - now))
    ensures Refilled(cfg, b, now) <= Refilled(cfg, b, t)
  {
    hide Gain;
    GainAdds(cfg, now - b.last, t - now);
    assert (now - b.last) + (t - now) == t - b.last;
    GainGrows(cfg, 0.0, t - now);
    GainGrows(cfg, 0.0, now - b.last);
  }

  /** Eviction changes nobody's level, now or later. */
  lemma EvictionKeepsLevels(cfg: Config, m: map<Key, Bucket>, key: Key, now: real, k: Key, t: real)
    requires Sane(cfg) && Before(m, now) && now <= t
    ensures Level(cfg, Evict(cfg, m, key, now), k, t) == Level(cfg, m, k, t)
    ensures Before(Evict(cfg, m, key, now), now)
  {
    hide Gain;
    if k in m {
      RefillInSteps(cfg, m[k], now, t);
    }
  }

  /** A check takes one token from one key, and only if it is allowed. */
  lemma CheckTakesOneToken(cfg: Config, m: map<Key, Bucket>, key: Key, now: real, k: Key, t: real)
    requires Sane(cfg) && Before(m, now) && now <= t
    ensures var (m', answer) := Check(cfg, m, key, now);
            && Before(m', now)
            && (answer == Allowed <==> Level(cfg, m, key, now) >= 1.0)
            && Level(cfg, m', k, t) ==
               if k == key && answer == Allowed
               then Capped(cfg, Level(cfg, m, key, now) - 1.0 + Gain(cfg, t - now))
               else Level(cfg, m, k, t)
  {
    hide Evict, Gain;
    EvictionKeepsLevels(cfg, m, key, now, k, t);
    EvictionKeepsLevels(cfg, m, key, now, key, now);
    var kept := Evict(cfg, m, key, now);
    if key in kept {
      RefillInSteps(cfg, kept[key], now, t);
    }
    RefillAtOnce(cfg, Check(cfg, m, key, now).0[key], t);
    RefillAtOnce(cfg, Bucket(cfg.burst, now), now);
    GainGrows(cfg, 0.0, t - now);
  }

  lemma RefillAtOnce(cfg: Config, b: Bucket, t: real)
    requires Sane(cfg) && b.last <= t
    ensures Refilled(cfg, b, t) == Capped(cfg, b.tokens + Gain(cfg, t - b.last))
    ensures Gain(cfg, 0.0) == 0.0
  {
  }

  // ---- whole request sequences ---------------------------------------------------------

  datatype Request = Request(key: Key, at: real)

  /** Calls reach the lock in the order of their clock readings. */
  predicate InOrder(reqs: seq<Request>) {
    forall i, j | 0 <= i < j < |reqs| :: reqs[i].at <= reqs[j].at
  }

  function After(cfg: Config, reqs: seq<Request>): map<Key, Bucket>
    requires Sane(cfg)
  {
    if reqs == [] then map[]
    else
      var r := reqs[|reqs| - 1];
      Check(cfg, After(cfg, reqs[..|reqs| - 1]), r.key, r.at).0
  }

  function AfterKept(cfg: Config, reqs: seq<Request>): map<Key, Bucket>
    requires Sane(cfg)
  {
    if reqs == [] then map[]
    else
      var r := reqs[|reqs| - 1];
      CheckKept(cfg, AfterKept(cfg, reqs[..|reqs| - 1]), r.key, r.at).0
  }

  /** What the limiter answers to the last of `reqs`. */
  function LastAnswer(cfg: Config, reqs: seq<Request>): Answer
    requires Sane(cfg) && reqs != []
  {
    var r := reqs[|reqs| - 1];
    Check(cfg, After(cfg, reqs[..|reqs| - 1]), r.key, r.at).1
  }

  /** The times at which `key` was allowed. */
  function Grants(cfg: Config, reqs: seq<Request>, key: Key): seq<real>
    requires Sane(cfg)
  {
    if reqs == [] then []
    else
      var r := reqs[|reqs| - 1];
      Grants(cfg, reqs[..|reqs| - 1], key)
      + if r.key == key && LastAnswer(cfg, reqs) == Allowed then [r.at] else []
  }

  /** The level a history of grants leaves at `t`. */
  function LevelOf(cfg: Config, grants: seq<real>, t: real): real {
    if grants == [] then cfg.burst
    else
      var last := grants[|grants| - 1];
      Capped(cfg, LevelOf(cfg, grants[..|grants| - 1], last) - 1.0 + Gain(cfg, t - last))
  }

  /** At every later time the map holds for each key exactly what its grants leave: refusals,
      evictions and other keys have no influence. */
  lemma {:induction false} LevelsFollowGrants(cfg: Config, reqs: seq<Request>, k: Key, t: real)
    requires Sane(cfg) && InOrder(reqs)
    requires reqs != [] ==> reqs[|reqs| - 1].at <= t
    ensures Level(cfg, After(cfg, reqs), k, t) == LevelOf(cfg, Grants(cfg, reqs, k), t)
    ensures Before(After(cfg, reqs), t)
    decreases |reqs|
  {
    hide Check, Gain, Level, LevelOf, Capped;
    if reqs == [] {
      NothingYet(cfg, k, t);
    } else {
      var init, r := reqs[..|reqs| - 1], reqs[|reqs| - 1];
      LevelsFollowGrants(cfg, init, r.key, r.at);
      LevelsFollowGrants(cfg, init, k, t);
      CheckTakesOneToken(cfg, After(cfg, init), r.key, r.at, k, t);
      var before := Grants(cfg, init, k);
      if r.key == k && LastAnswer(cfg, reqs) == Allowed {
        assert Grants(cfg, reqs, k) == before + [r.at];
        LevelOfPush(cfg, before, r.at, t);
      } else {
        assert Grants(cfg, reqs, k) == before;
      }
    }
  }

  lemma NothingYet(cfg: Config, k: Key, t: real)
    requires Sane(cfg)
    ensures Level(cfg, After(cfg, []), k, t) == LevelOf(cfg, Grants(cfg, [], k), t) && Before(After(cfg, []), t)
  {
  }

  lemma LevelOfPush(cfg: Config, grants: seq<real>, at: real, t: real)
    ensures LevelOf(cfg, grants + [at], t) == Capped(cfg, LevelOf(cfg, grants, at) - 1.0 + Gain(cfg, t - at))
  {
    assert (grants + [at])[..|grants|] == grants;
  }

  /** `n` grants ending now fit a window that started at `since`. */
  predicate Fits(cfg: Config, n: int, since: real, now: real) {
    n as real <= cfg.burst + Gain(cfg, now - since)
  }

  lemma {:induction false} LevelIsTheTightestWindow(cfg: Config, grants: seq<real>, t: real, x: real)
    requires Sane(cfg)
    ensures LevelOf(cfg, grants, t) >= x <==>
              && cfg.burst >= x
              && forall i | 0 <= i < |grants| :: Leaves(cfg, |grants| - i, grants[i], t, x)
    decreases |grants|
  {
    hide Gain;
    if grants != [] {
      var n := |grants| - 1;
      var init, last := grants[..n], grants[n];
      var y := x + 1.0 - Gain(cfg, t - last);
      LevelIsTheTightestWindow(cfg, init, last, y);
      forall i | 0 <= i < n
        ensures Leaves(cfg, n - i, init[i], last, y) <==> Leaves(cfg, n + 1 - i, grants[i], t, x)
      {
        GainAdds(cfg, t - last, last - grants[i]);
        assert (t - last) + (last - grants[i]) == t - grants[i];
        assert (n + 1 - i) as real == (n - i) as real + 1.0;
      }
      assert Leaves(cfg, 1, last, t, x) <==> cfg.burst >= y;
    }
  }

  /** `n` grants since `since` still leave `x` tokens. */
  predicate Leaves(cfg: Config, n: int, since: real, now: real, x: real) {
    x + n as real <= cfg.burst + Gain(cfg, now - since)
  }

  /** The limiter is exactly a sliding-window bound, for every window at once: a request is allowed if
      and only if granting it keeps each window, from any earlier grant to now, within the burst plus
      what is refilled over the window. Evictions, refusals and other keys do not enter into it. */
  lemma AllowedIffEveryWindowFits(cfg: Config, reqs: seq<Request>)
    requires Sane(cfg) && InOrder(reqs) && reqs != []
    ensures var r := reqs[|reqs| - 1];
            var grants := Grants(cfg, reqs[..|reqs| - 1], r.key);
            LastAnswer(cfg, reqs) == Allowed <==>
              && cfg.burst >= 1.0
              && forall i | 0 <= i < |grants| :: Fits(cfg, |grants| - i + 1, grants[i], r.at)
  {
    hide Check, Gain;
    var init, r := reqs[..|reqs| - 1], reqs[|reqs| - 1];
    var grants := Grants(cfg, init, r.key);
    LevelsFollowGrants(cfg, init, r.key, r.at);
    CheckTakesOneToken(cfg, After(cfg, init), r.key, r.at, r.key, r.at);
    LevelIsTheTightestWindow(cfg, grants, r.at, 1.0);
    forall i | 0 <= i < |grants|
      ensures Fits(cfg, |grants| - i + 1, grants[i], r.at) <==>
              Leaves(cfg, |grants| - i, grants[i], r.at, 1.0)
    {
    }
  }

  lemma GrantsUnfold(cfg: Config, reqs: seq<Request>, key: Key)
    requires Sane(cfg)
    ensures Grants(cfg, reqs, key) ==
            if reqs == [] then []
            else Grants(cfg, reqs[..|reqs| - 1], key)
                 + if reqs[|reqs| - 1].key == key && LastAnswer(cfg, reqs) == Allowed then [reqs[|reqs| - 1].at] else []
  {
  }

  lemma {:induction false} EveryWindowFits(cfg: Config, reqs: seq<Request>, key: Key, i: nat, j: nat)
    requires Sane(cfg) && InOrder(reqs)
    requires i <= j < |Grants(cfg, reqs, key)|
    ensures var grants := Grants(cfg, reqs, key);
            && Fits(cfg, j - i + 1, grants[i], grants[j])
            && exists n | 0 <= n < |reqs| :: grants[j] == reqs[n].at
    decreases |reqs|
  {
    hide Check, Gain, Grants;
    GrantsUnfold(cfg, reqs, key);
    var init, r := reqs[..|reqs| - 1], reqs[|reqs| - 1];
    var before := Grants(cfg, init, key);
    if j < |before| {
      EveryWindowFits(cfg, init, key, i, j);
      var n :| 0 <= n < |init| && before[j] == init[n].at;
      assert reqs[n] == init[n];
    } else {
      AllowedIffEveryWindowFits(cfg, reqs);
      GainGrows(cfg, 0.0, 0.0);
      assert i < j ==> Fits(cfg, |before| - i + 1, before[i], r.at);
    }
  }

  /** How many of the grants fall in [t1, t2]. */
  function Within(grants: seq<real>, t1: real, t2: real): nat {
    if grants == [] then 0
    else Within(grants[..|grants| - 1], t1, t2) + if t1 <= grants[|grants| - 1] <= t2 then 1 else 0
  }

  predicate Ascending(grants: seq<real>) {
    forall i, j | 0 <= i < j < |grants| :: grants[i] <= grants[j]
  }

  lemma {:induction false} WithinIsARange(grants: seq<real>, t1: real, t2: real) returns (i: nat, j: nat)
    requires Ascending(grants)
    ensures i <= j <= |grants| && Within(grants, t1, t2) == j - i
    ensures i < j ==> t1 <= grants[i] && grants[j - 1] <= t2
    ensures forall n | j <= n < |grants| :: grants[n] < t1 || grants[n] > t2
    decreases |grants|
  {
    if grants == [] {
      i, j := 0, 0;
    } else {
      var n := |grants| - 1;
      i, j := WithinIsARange(grants[..n], t1, t2);
      if t1 <= grants[n] <= t2 {
        if i == j {
          i, j := n, n + 1;
        } else {
          assert grants[j - 1] <= t2;
          j := n + 1;
        }
      }
    }
  }

  lemma {:induction false} GrantsAscend(cfg: Config, reqs: seq<Request>, key: Key)
    requires Sane(cfg) && InOrder(reqs)
    ensures Ascending(Grants(cfg, reqs, key))
    ensures forall j | 0 <= j < |Grants(cfg, reqs, key)| :: exists n | 0 <= n < |reqs| :: Grants(cfg, reqs, key)[j] == reqs[n].at
    decreases |reqs|
  {
    if reqs != [] {
      var init := reqs[..|reqs| - 1];
      GrantsAscend(cfg, init, key);
      var before := Grants(cfg, init, key);
      forall j | 0 <= j < |before|
        ensures exists n | 0 <= n < |init| :: before[j] == reqs[n].at
      {
        var n :| 0 <= n < |init| && before[j] == init[n].at;
        assert before[j] == reqs[n].at;
      }
    }
  }

  /** No interval sees more than the burst plus what is refilled over it, whoever else calls and
      however the map is pruned. */
  lemma RateIsBounded(cfg: Config, reqs: seq<Request>, key: Key, t1: real, t2: real)
    requires Sane(cfg) && InOrder(reqs) && t1 <= t2 && cfg.burst >= 0.0
    ensures Within(Grants(cfg, reqs, key), t1, t2) as real <= cfg.burst + Gain(cfg, t2 - t1)
  {
    hide Grants, Gain, Within;
    var grants := Grants(cfg, reqs, key);
    GrantsAscend(cfg, reqs, key);
    var i, j := WithinIsARange(grants, t1, t2);
    GainGrows(cfg, 0.0, t2 - t1);
    if i < j {
      EveryWindowFits(cfg, reqs, key, i, j - 1);
      GainGrows(cfg, grants[j - 1] - grants[i], t2 - t1);
    }
  }

  /** The limiter the service runs: one token a second, ten at once, 4096 clients tracked. */
  const SERVICE: Config := Config(10.0, 1.0, 4096)

  lemma ServiceRate(reqs: seq<Request>, key: Key, t1: real, t2: real)
    requires InOrder(reqs) && t1 <= t2
    ensures Within(Grants(SERVICE, reqs, key), t1, t2) as real <= 10.0 + (t2 - t1)
  {
    RateIsBounded(SERVICE, reqs, key, t1, t2);
  }

  // ---- eviction is not observable ------------------------------------------------------

  lemma {:induction false} KeptLevelsAgree(cfg: Config, reqs: seq<Request>, k: Key, t: real)
    requires Sane(cfg) && InOrder(reqs)
    requires reqs != [] ==> reqs[|reqs| - 1].at <= t
    ensures Before(AfterKept(cfg, reqs), t) && Before(After(cfg, reqs), t)
    ensures Level(cfg, AfterKept(cfg, reqs), k, t) == Level(cfg, After(cfg, reqs), k, t)
    decreases |reqs|
  {
    hide Check, CheckKept, Level;
    if reqs == [] {
      BothEmpty(cfg, k, t);
    } else {
      var init, r := reqs[..|reqs| - 1], reqs[|reqs| - 1];
      KeptLevelsAgree(cfg, init, r.key, r.at);
      KeptLevelsAgree(cfg, init, k, t);
      CheckTakesOneToken(cfg, After(cfg, init), r.key, r.at, k, t);
      var unbounded := cfg.(maxClients := |AfterKept(cfg, init)| + 1);
      SameArithmetic(cfg, unbounded, AfterKept(cfg, init), r.key, r.at);
      CheckTakesOneToken(unbounded, AfterKept(cfg, init), r.key, r.at, k, t);
      SameLevels(cfg, unbounded, AfterKept(cfg, init), r.key, r.at);
      SameLevels(cfg, unbounded, AfterKept(cfg, init), k, t);
      SameLevels(cfg, unbounded, AfterKept(cfg, reqs), k, t);
    }
  }

  lemma BothEmpty(cfg: Config, k: Key, t: real)
    requires Sane(cfg)
    ensures Level(cfg, AfterKept(cfg, []), k, t) == Level(cfg, After(cfg, []), k, t)
    ensures Before(AfterKept(cfg, []), t) && Before(After(cfg, []), t)
  {
  }

  lemma SameLevels(cfg: Config, unbounded: Config, m: map<Key, Bucket>, k: Key, t: real)
    requires unbounded == cfg.(maxClients := unbounded.maxClients)
    ensures Level(unbounded, m, k, t) == Level(cfg, m, k, t)
  {
  }

  lemma SameArithmetic(cfg: Config, unbounded: Config, m: map<Key, Bucket>, key: Key, now: real)
    requires Sane(cfg) && unbounded == cfg.(maxClients := |m| + 1)
    ensures Check(unbounded, m, key, now) == CheckKept(cfg, m, key, now)
  {
  }

  /** The limiter that evicts gives on every request sequence, request by request, the answers (and
      the waits) of one that never evicts. */
  lemma EvictionIsInvisible(cfg: Config, reqs: seq<Request>)
    requires Sane(cfg) && InOrder(reqs) && reqs != []
    ensures var r := reqs[|reqs| - 1];
            LastAnswer(cfg, reqs) == CheckKept(cfg, AfterKept(cfg, reqs[..|reqs| - 1]), r.key, r.at).1
  {
    var init, r := reqs[..|reqs| - 1], reqs[|reqs| - 1];
    KeptLevelsAgree(cfg, init, r.key, r.at);
    EvictionKeepsLevels(cfg, After(cfg, init), r.key, r.at, r.key, r.at);
  }

  /** The map outgrows its cap only while every other client in it is active. */
  lemma MapOutgrowsItsCapOnlyWhenAllAreActive(cfg: Config, m: map<Key, Bucket>, key: Key, now: real)
    requires Sane(cfg) && key !in m
    ensures var m' := Check(cfg, m, key, now).0;
            |m'| > cfg.maxClients ==> forall k | k in m' && k != key :: Refilled(cfg, m'[k], now) < cfg.burst
  {
    if |m| < cfg.maxClients {
      var m' := Check(cfg, m, key, now).0;
      assert m'.Keys == m.Keys + {key};
      assert |m'.Keys| == |m.Keys| + 1;
    }
  }

  // ---- the promised wait ---------------------------------------------------------------

  /** A refusal's wait is exact: if the key is next granted nothing before `later`, a check then
      succeeds if and only if the wait has passed. With a burst below one token no wait is enough. */
  lemma WaitIsExact(cfg: Config, reqs: seq<Request>, later: seq<Request>, key: Key, t: real)
    requires Sane(cfg) && InOrder(reqs) && reqs != [] && LastAnswer(cfg, reqs).RetryAfter?
    requires key == reqs[|reqs| - 1].key
    requires InOrder(reqs + later + [Request(key, t)])
    requires Grants(cfg, reqs + later, key) == Grants(cfg, reqs, key)
    ensures LastAnswer(cfg, reqs + later + [Request(key, t)]) == Allowed <==>
              cfg.burst >= 1.0 && t >= reqs[|reqs| - 1].at + LastAnswer(cfg, reqs).wait
  {
    var all := reqs + later + [Request(key, t)];
    var init, r := reqs[..|reqs| - 1], reqs[|reqs| - 1];
    assert all[..|all| - 1] == reqs + later;
    assert all[|reqs| - 1] == r && all[|all| - 1].at == t;
    LevelsFollowGrants(cfg, reqs, key, t);
    LevelsFollowGrants(cfg, reqs + later, key, t);
    CheckTakesOneToken(cfg, After(cfg, reqs + later), key, t, key, t);
    assert LastAnswer(cfg, all) == Allowed <==> Level(cfg, After(cfg, reqs), key, t) >= 1.0;
    RefusalStores(cfg, After(cfg, init), key, r.at, t);
  }

  lemma RefusalStores(cfg: Config, m: map<Key, Bucket>, key: Key, now: real, t: real)
    requires Sane(cfg) && now <= t && Check(cfg, m, key, now).1.RetryAfter?
    ensures var (m', answer) := Check(cfg, m, key, now);
            Level(cfg, m', key, t) >= 1.0 <==> cfg.burst >= 1.0 && t >= now + answer.wait
  {
    var (m', answer) := Check(cfg, m, key, now);
    var tokens := m'[key].tokens;
    DivideThrough(1.0 - tokens, cfg.refill, t - now);
  }

  lemma DivideThrough(a: real, r: real, d: real)
    requires r > 0.0
    ensures d * r >= a <==> d >= a / r
  {
    assert a == (a / r) * r;
    if d >= a / r {
      assert (d - a / r) * r >= 0.0;
    } else {
      assert (a / r - d) * r > 0.0;
    }
  }
}

/** The limiter behind its mutex. */
module LimiterContract {
  import opened LimiterSpec

  class RateLimiter {
    const cfg: Config
    var buckets: map<Key, Bucket>

    constructor (burst: real, refill: real, maxClients: nat)
      requires refill > 0.0
      ensures cfg == Config(burst, refill, maxClients) && Sane(cfg) && buckets == map[]
    {
      cfg := Config(burst, refill, maxClients);
      buckets := map[];
    }

    method CheckAt(key: Key, now: real) returns (answer: Answer)
      requires Sane(cfg)
      modifies this
      ensures (buckets, answer) == Check(cfg, old(buckets), key, now)
    {
      if |buckets| >= cfg.maxClients && key !in buckets {
        buckets := map k | k in buckets && Refilled(cfg, buckets[k], now) < cfg.burst :: buckets[k];
      }
      assert buckets == Evict(cfg, old(buckets), key, now);
      ghost var kept := buckets;
      if key !in buckets {
        buckets := buckets[key := Bucket(cfg.burst, now)];
      }
      buckets := buckets[key := Bucket(Refilled(cfg, buckets[key], now), now)];
      var tokens := buckets[key].tokens;
      if tokens >= 1.0 {
        buckets := buckets[key := Bucket(tokens - 1.0, now)];
        answer := Allowed;
      } else {
        answer := RetryAfter((1.0 - tokens) / cfg.refill);
      }
      assert buckets == kept[key := buckets[key]];
    }

    /** Serves a whole queue of requests: the limiter ends where the specification's run does. */
    method Serve(reqs: seq<Request>) returns (answers: seq<Answer>)
      requires Sane(cfg) && buckets == map[]
      modifies this
      ensures buckets == After(cfg, reqs)
      ensures |answers| == |reqs|
      ensures forall i | 0 <= i < |reqs| :: answers[i] == LastAnswer(cfg, reqs[..i + 1])
    {
      answers := [];
      for i := 0 to |reqs|
        invariant buckets == After(cfg, reqs[..i])
        invariant |answers| == i
        invariant forall j | 0 <= j < i :: answers[j] == LastAnswer(cfg, reqs[..j + 1])
      {
        assert reqs[..i + 1][..i] == reqs[..i];
        var answer := CheckAt(reqs[i].key, reqs[i].at);
        answers := answers + [answer];
      }
      assert reqs[..|reqs|] == reqs;
    }
  }
}
