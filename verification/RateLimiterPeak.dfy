/** The bound on the allow answers of an interval is attained, so the promise of ceil(len / W) + 1 quotas is
    kept exactly as long as answers are not too late: for one window length, not later than one nanosecond. */
module RateLimiterPeak {
  import opened Prelude
  import opened RateLimiter
  import opened RateLimiterInvariant
  import opened RateLimiterTheorems
  import opened RateLimiterLimits

  /** The interval to be filled with answers, and how late these may be. */
  datatype Plan = Plan(lo: Time, hi: Time, delay: nat)

  /** On time, and answered in the interval, or waiting for an answer that will fall into it. */
  predicate Good(cfg: Config, plan: Plan, now: Time, hit: Hit) {
    && InWindow(cfg, hit.bucket, hit.at) && hit.count <= cfg.limit
    && match hit.status
       case AtReply => plan.lo <= hit.at + plan.delay && (now <= plan.lo || hit.at == now)
       case Allowed(at, _) => plan.lo <= at < plan.hi && at <= hit.at + plan.delay
       case _ => false
  }

  ghost predicate AllGood(cfg: Config, plan: Plan, now: Time, hits: seq<Hit>) {
    forall i | 0 <= i < |hits| :: Good(cfg, plan, now, hits[i])
  }

  ghost predicate Untouched(s: Sys, c: string, b: Bucket) {
    forall b' | b' >= b :: RedisKey(c, b') !in s.store
  }

  /** A quota was counted in each bucket before `b`; the later ones were not used. */
  ghost predicate Between(cfg: Config, plan: Plan, s: Sys, c: string, b: Bucket) {
    && s.Of(c).waiting == map[] && |s.Of(c).hits| == b * cfg.limit
    && Untouched(s, c, b) && AllGood(cfg, plan, s.now, s.Of(c).hits)
  }

  /** Inside bucket `b`, `j` requests were counted. */
  ghost predicate Loading(cfg: Config, plan: Plan, s: Sys, c: string, b: Bucket, j: nat) {
    && s.Of(c).waiting == map[] && |s.Of(c).hits| == b * cfg.limit + j
    && InWindow(cfg, b, s.now) && plan.lo <= s.now + plan.delay
    && Untouched(s, c, b + 1) && AllGood(cfg, plan, s.now, s.Of(c).hits)
    && var key := RedisKey(c, b);
       if j == 0 then key !in s.store
       else Alive(s.store, key, s.now) && s.store[key].count == j
  }

  lemma OneKeyTouched(s: Sys, s': Sys, c: string, b: Bucket)
    requires Untouched(s, c, b + 1)
    requires forall key | key != RedisKey(c, b) :: key in s'.store ==> key in s.store
    ensures Untouched(s', c, b + 1)
  {
    forall b' | b' >= b + 1
      ensures RedisKey(c, b') !in s'.store
    {
      if RedisKey(c, b') == RedisKey(c, b) {
        RedisKeyInjective(c, b', c, b);
      }
    }
  }

  lemma LoadOne(cfg: Config, plan: Plan, c: string, s: Sys, b: Bucket, j: nat) returns (trace: seq<Action>)
    requires Sound(cfg) && j < cfg.limit && Loading(cfg, plan, s, c, b, j)
    ensures Loading(cfg, plan, Run(cfg, s, trace), c, b, j + 1) && Run(cfg, s, trace).now == s.now
  {
    hide Run, RedisKey, BucketAt, Start, Width;
    var hits, key := s.Of(c).hits, RedisKey(c, b);
    trace := [Arrive(c, 0), Incr(c, 0, NoFault), Expire(c, |hits|, NoFault), Tick(0)];
    RunFour(cfg, s, trace[0], trace[1], trace[2], trace[3]);
    BucketContains(cfg, s.now);
    WindowsDisjoint(cfg, b, BucketAt(cfg, s.now), s.now);
    var s1 := Next(cfg, s, trace[0]);
    assert s1.Of(c).waiting == map[0 := b] && s1.Of(c).hits == hits && s1.store == s.store;
    var s2 := Next(cfg, s1, trace[1]);
    var hit := Hit(b, s.now, j + 1, AtReply);
    assert s2.Of(c).waiting == map[] && s2.Of(c).hits == hits + [hit.(status := if j == 0 then AtExpire else AtReply)];
    var s3 := Next(cfg, s2, trace[2]);
    assert s3.Of(c).waiting == map[] && s3.Of(c).hits == hits + [hit];
    TtlPositive(cfg);
    OneKeyTouched(s, s3, c, b);
  }

  lemma TtlPositive(cfg: Config)
    requires Sound(cfg)
    ensures cfg.ttl > 0 && Width(cfg) > 0
  {
  }

  lemma {:induction false} LoadQuota(cfg: Config, plan: Plan, c: string, s: Sys, b: Bucket, j: nat)
      returns (trace: seq<Action>)
    requires Sound(cfg) && j <= cfg.limit && Loading(cfg, plan, s, c, b, 0)
    ensures Loading(cfg, plan, Run(cfg, s, trace), c, b, j) && Run(cfg, s, trace).now == s.now
  {
    hide Run, Loading;
    if j == 0 {
      trace := [];
      RunNothing(cfg, s);
    } else {
      var before := LoadQuota(cfg, plan, c, s, b, j - 1);
      var one := LoadOne(cfg, plan, c, Run(cfg, s, before), b, j - 1);
      RunConcat(cfg, s, before, one);
      trace := before + one;
    }
  }

  /** A whole quota is counted at one instant of bucket `b`. */
  lemma FillBucket(cfg: Config, plan: Plan, c: string, s: Sys, b: Bucket) returns (trace: seq<Action>)
    requires Sound(cfg) && cfg.limit >= 1 && Between(cfg, plan, s, c, b)
    requires InWindow(cfg, b, s.now) && plan.lo <= s.now + plan.delay
    ensures Between(cfg, plan, Run(cfg, s, trace), c, b + 1) && Run(cfg, s, trace).now == s.now
  {
    hide Run, RedisKey, InWindow, AllGood;
    trace := LoadQuota(cfg, plan, c, s, b, cfg.limit);
    assert (b + 1) * cfg.limit == b * cfg.limit + cfg.limit;
  }

  predicate Answered(hits: seq<Hit>, k: nat) {
    forall i | 0 <= i < k && i < |hits| :: hits[i].status.Allowed?
  }

  /** Time passes, up to the interval at most while answers are due. */
  lemma WaitUntil(cfg: Config, plan: Plan, c: string, s: Sys, b: Bucket, t: Time) returns (trace: seq<Action>)
    requires Sound(cfg) && Between(cfg, plan, s, c, b) && s.now <= t
    requires t <= plan.lo || t == s.now || Answered(s.Of(c).hits, |s.Of(c).hits|)
    ensures Run(cfg, s, trace) == s.(now := t) && Between(cfg, plan, Run(cfg, s, trace), c, b)
  {
    hide RedisKey, InWindow;
    RunNothing(cfg, s);
    RunSnoc(cfg, s, [], Tick(t - s.now));
    trace := [] + [Tick(t - s.now)];
    hide Run;
    var s' := s.(now := t);
    assert s'.Of(c) == s.Of(c);
  }

  lemma {:induction false} AnswerDue(cfg: Config, plan: Plan, c: string, s: Sys, b: Bucket, k: nat)
      returns (trace: seq<Action>)
    requires Sound(cfg) && Between(cfg, plan, s, c, b) && plan.lo <= s.now < plan.hi && k <= |s.Of(c).hits|
    ensures var s' := Run(cfg, s, trace); Between(cfg, plan, s', c, b) && Answered(s'.Of(c).hits, k) && s'.now == s.now
  {
    hide Run, RedisKey, InWindow;
    if k == 0 {
      trace := [];
      RunNothing(cfg, s);
    } else {
      var before := AnswerDue(cfg, plan, c, s, b, k - 1);
      RunSnoc(cfg, s, before, Reply(c, k - 1));
      trace := before + [Reply(c, k - 1)];
      var s1 := Run(cfg, s, before);
      assert Good(cfg, plan, s1.now, s1.Of(c).hits[k - 1]);
      var s' := Next(cfg, s1, Reply(c, k - 1));
      assert s'.store == s1.store;
    }
  }

  /** The INCRs of bucket `b`: in its last nanosecond for the first bucket, at its start for the others. */
  function Instant(cfg: Config, b: Bucket): Time
    requires cfg.windowSec >= 1
  {
    if b == 0 then Width(cfg) - 1 else Start(cfg, b)
  }

  lemma InstantsInOrder(cfg: Config, b: Bucket)
    requires Sound(cfg)
    ensures InWindow(cfg, b, Instant(cfg, b)) && Width(cfg) - 1 <= Instant(cfg, b) < Start(cfg, b + 1)
    ensures Instant(cfg, b + 1) == Start(cfg, b + 1)
  {
    StartStep(cfg, b);
    TtlPositive(cfg);
    if b == 0 {
      assert Start(cfg, 0) == 0;
    } else {
      MulMono(1, b, Width(cfg));
    }
  }

  /** Answer what is due when the last bucket to start before the interval is full, and from then on each
      bucket at once. */
  lemma AnswerBefore(cfg: Config, plan: Plan, c: string, s: Sys, b: Bucket) returns (trace: seq<Action>)
    requires Sound(cfg) && Between(cfg, plan, s, c, b) && s.now < plan.hi && plan.lo < plan.hi
    ensures var s' := Run(cfg, s, trace);
      && Between(cfg, plan, s', c, b) && Answered(s'.Of(c).hits, |s'.Of(c).hits|)
      && s'.now == Max(s.now, plan.lo)
  {
    hide Run, Between, Answered;
    var wait := WaitUntil(cfg, plan, c, s, b, Max(s.now, plan.lo));
    var s1 := Run(cfg, s, wait);
    assert s1.Of(c) == s.Of(c);
    var answer := AnswerDue(cfg, plan, c, s1, b, |s1.Of(c).hits|);
    RunConcat(cfg, s, wait, answer);
    trace := wait + answer;
    SameNumber(cfg, plan, s1, Run(cfg, s1, answer), c, b);
  }

  lemma SameNumber(cfg: Config, plan: Plan, s: Sys, s': Sys, c: string, b: Bucket)
    requires Between(cfg, plan, s, c, b) && Between(cfg, plan, s', c, b)
    ensures |s.Of(c).hits| == |s'.Of(c).hits|
  {
  }

  lemma {:induction false} FillAll(cfg: Config, plan: Plan, c: string, s: Sys, b: Bucket, m: nat)
      returns (trace: seq<Action>)
    requires Sound(cfg) && cfg.limit >= 1 && b < m
    requires Between(cfg, plan, s, c, b) && s.now == Instant(cfg, b)
    requires plan.lo == Width(cfg) - 1 + plan.delay && plan.lo < plan.hi
    requires Instant(cfg, m - 1) < plan.hi && plan.lo < Start(cfg, m)
    ensures var s' := Run(cfg, s, trace); Between(cfg, plan, s', c, m) && Answered(s'.Of(c).hits, |s'.Of(c).hits|)
    decreases m - b
  {
    hide Run, Between, Answered, Start, Width, Instant;
    InstantsInOrder(cfg, b);
    var edge := Start(cfg, b + 1);
    var fill := FillBucket(cfg, plan, c, s, b);
    var s1 := Run(cfg, s, fill);
    if edge <= plan.lo {
      var wait := WaitUntil(cfg, plan, c, s1, b + 1, edge);
      RunConcat(cfg, s, fill, wait);
      var rest := FillAll(cfg, plan, c, Run(cfg, s1, wait), b + 1, m);
      RunConcat(cfg, s, fill + wait, rest);
      trace := fill + wait + rest;
    } else {
      InstantsGrow(cfg, b, m - 1);
      var answer := AnswerBefore(cfg, plan, c, s1, b + 1);
      RunConcat(cfg, s, fill, answer);
      trace := fill + answer;
      if b + 1 < m {
        var s2 := Run(cfg, s1, answer);
        var wait := WaitUntil(cfg, plan, c, s2, b + 1, edge);
        RunConcat(cfg, s, fill + answer, wait);
        var rest := FillAll(cfg, plan, c, Run(cfg, s2, wait), b + 1, m);
        RunConcat(cfg, s, fill + answer + wait, rest);
        trace := fill + answer + wait + rest;
      }
    }
  }

  lemma InstantsGrow(cfg: Config, b: Bucket, b': Bucket)
    requires Sound(cfg) && b <= b'
    ensures Instant(cfg, b) <= Instant(cfg, b')
  {
    if b < b' {
      InstantsInOrder(cfg, b);
      StartMono(cfg, b + 1, b');
    }
  }

  lemma FilledHits(cfg: Config, plan: Plan, s: Sys, c: string, m: nat)
    requires Between(cfg, plan, s, c, m) && Answered(s.Of(c).hits, |s.Of(c).hits|)
    ensures AllOnTime(cfg, s.Of(c).hits) && Prompt(s.Of(c).hits, plan.delay)
    ensures AnsweredBetween(s.Of(c).hits, plan.lo, plan.hi) == m * cfg.limit
  {
    var hits := s.Of(c).hits;
    assert forall i | 0 <= i < |hits| :: Good(cfg, plan, s.now, hits[i]);
    AllAnswered(hits, plan.lo, plan.hi);
  }

  /** For every positive limit, length and delay there is a run, its INCRs on time and its answers within the
      delay, in which an interval of that length holds as many allow answers as QuotaOverInterval admits. */
  lemma PeakIsReached(cfg: Config, c: string, len: nat, delay: nat) returns (trace: seq<Action>, lo: Time)
    requires Sound(cfg) && cfg.limit >= 1 && len >= 1
    ensures var hits := Run(cfg, INIT, trace).Of(c).hits;
      && AllOnTime(cfg, hits) && Prompt(hits, delay)
      && AnsweredBetween(hits, lo, lo + len) == Touched(len + delay, Width(cfg)) * Quota(cfg)
  {
    hide Run, Between, Answered, Instant;
    var w, m := Width(cfg), Touched(len + delay, Width(cfg));
    TtlPositive(cfg);
    lo := w - 1 + delay;
    var plan := Plan(lo, lo + len, delay);
    StartOfPlan(cfg, plan, c);
    var wait := WaitUntil(cfg, plan, c, INIT, 0, w - 1);
    var s := Run(cfg, INIT, wait);
    LastInstant(cfg, len + delay);
    hide Touched;
    assert s.now == Instant(cfg, 0) by { FirstInstant(cfg); }
    var fill := FillAll(cfg, plan, c, s, 0, m);
    RunConcat(cfg, INIT, wait, fill);
    trace := wait + fill;
    FilledHits(cfg, plan, Run(cfg, INIT, trace), c, m);
  }

  lemma FirstInstant(cfg: Config)
    requires Sound(cfg)
    ensures Instant(cfg, 0) == Width(cfg) - 1
  {
  }

  lemma StartOfPlan(cfg: Config, plan: Plan, c: string)
    ensures Between(cfg, plan, INIT, c, 0)
  {
  }

  lemma LastInstant(cfg: Config, n: nat)
    requires Sound(cfg) && n >= 1
    ensures var m := Touched(n, Width(cfg));
      m >= 1 && Instant(cfg, m - 1) < Width(cfg) - 1 + n && Width(cfg) - 1 + n <= Start(cfg, m)
  {
    var w := Width(cfg);
    TtlPositive(cfg);
    var k := (n + w - 2) / w;
    assert n + w - 2 == w * k + (n + w - 2) % w;
    assert Start(cfg, k) == w * k;
    StartStep(cfg, k);
  }

  // ------------------------------------------------------------------ when the promise is kept

  predicate Within(cfg: Config, hits: seq<Hit>, lo: Time, len: nat, quotas: nat) {
    AnsweredBetween(hits, lo, lo + len) <= quotas * Quota(cfg)
  }

  /** In every run with on-time INCRs and answers within `delay`, no interval of length `len` holds more than
      so many quotas of allow answers. */
  ghost predicate Promised(cfg: Config, len: nat, delay: nat, quotas: nat)
    requires cfg.windowSec >= 1
  {
    forall trace: seq<Action>, c: string, lo: Time ::
      AllOnTime(cfg, Run(cfg, INIT, trace).Of(c).hits) && Prompt(Run(cfg, INIT, trace).Of(c).hits, delay) ==>
        Within(cfg, Run(cfg, INIT, trace).Of(c).hits, lo, len, quotas)
  }

  /** No more quotas can be promised than the interval and the delay touch windows, and that many can. */
  lemma PromisedIff(cfg: Config, len: nat, delay: nat, quotas: nat)
    requires Sound(cfg)
    ensures Promised(cfg, len, delay, quotas) <==>
      cfg.limit <= 0 || len == 0 || Touched(len + delay, Width(cfg)) <= quotas
  {
    hide Run, Touched, AllOnTime, Prompt, AnsweredBetween, CeilDiv;
    if cfg.limit >= 1 && len >= 1 && quotas < Touched(len + delay, Width(cfg)) {
      var trace, lo := PeakIsReached(cfg, "", len, delay);
      StrictMul(quotas, Touched(len + delay, Width(cfg)), Quota(cfg));
      assert !Within(cfg, Run(cfg, INIT, trace).Of("").hits, lo, len, quotas);
    } else {
      forall trace: seq<Action>, c: string, lo: Time
        | AllOnTime(cfg, Run(cfg, INIT, trace).Of(c).hits) && Prompt(Run(cfg, INIT, trace).Of(c).hits, delay)
        ensures Within(cfg, Run(cfg, INIT, trace).Of(c).hits, lo, len, quotas)
      {
        QuotaOverInterval(cfg, trace, c, lo, len, delay);
        if cfg.limit <= 0 {
          assert Quota(cfg) == 0;
        } else if len == 0 {
          NoAnswers(Run(cfg, INIT, trace).Of(c).hits, lo);
        } else {
          MulMono(Touched(len + delay, Width(cfg)), quotas, Quota(cfg));
        }
      }
    }
  }

  lemma StrictMul(a: nat, b: nat, q: nat)
    requires a < b && q > 0
    ensures a * q < b * q
  {
    MulMono(a + 1, b, q);
    assert (a + 1) * q == a * q + q;
  }

  lemma {:induction false} NoAnswers(hits: seq<Hit>, lo: Time)
    ensures AnsweredBetween(hits, lo, lo) == 0
  {
    if hits == [] {
    } else {
      NoAnswers(hits[..|hits| - 1], lo);
    }
  }

  /** The promise of ceil(len / W) + 1 quotas of allow answers in any interval of length `len` is kept exactly
      when the delay leaves `len + delay` at most an instant above the next multiple of the window. */
  lemma CeilPromiseIff(cfg: Config, len: nat, delay: nat)
    requires Sound(cfg)
    ensures Promised(cfg, len, delay, CeilDiv(len, Width(cfg)) + 1) <==>
      cfg.limit <= 0 || len == 0 || len + delay <= CeilDiv(len, Width(cfg)) * Width(cfg) + 1
  {
    hide Touched, CeilDiv, Promised;
    TtlPositive(cfg);
    PromisedIff(cfg, len, delay, CeilDiv(len, Width(cfg)) + 1);
    if len == 0 {
    } else {
      TouchedIff(len + delay, Width(cfg), CeilDiv(len, Width(cfg)));
    }
  }

  /** For one window length: twice the quota is kept exactly when no answer comes later than one nanosecond
      after its INCR. */
  lemma TwicePromiseIff(cfg: Config, delay: nat)
    requires Sound(cfg)
    ensures Promised(cfg, Width(cfg), delay, 2) <==> cfg.limit <= 0 || delay <= 1
  {
    hide Touched, Promised;
    TtlPositive(cfg);
    PromisedIff(cfg, Width(cfg), delay, 2);
    TouchedIff(Width(cfg) + delay, Width(cfg), 1);
  }

  /** The input: answers two nanoseconds late, and three quotas in one window length. */
  lemma ThreeQuotasInOneWindow(cfg: Config, c: string) returns (trace: seq<Action>, lo: Time)
    requires Sound(cfg) && cfg.limit >= 1
    ensures var hits := Run(cfg, INIT, trace).Of(c).hits;
      && AllOnTime(cfg, hits) && Prompt(hits, 2)
      && AnsweredBetween(hits, lo, lo + Width(cfg)) == 3 * cfg.limit
  {
    hide Run, AllOnTime, Prompt, AnsweredBetween;
    TtlPositive(cfg);
    trace, lo := PeakIsReached(cfg, c, Width(cfg), 2);
    TouchedIff(Width(cfg) + 2, Width(cfg), 1);
    TouchedIff(Width(cfg) + 2, Width(cfg), 2);
    assert Touched(Width(cfg) + 2, Width(cfg)) == 3;
  }
}
