/** Why the quota theorems of the rate limiter have their assumptions: without them no bound holds at all. */
module RateLimiterLimits {
  import opened Prelude
  import opened RateLimiter
  import opened RateLimiterInvariant
  import opened RateLimiterTheorems

  lemma RunNothing(cfg: Config, s: Sys)
    requires cfg.windowSec >= 1
    ensures Run(cfg, s, []) == s
  {
  }

  lemma RunTwo(cfg: Config, s: Sys, a: Action, b: Action)
    requires cfg.windowSec >= 1
    ensures Run(cfg, s, [a, b]) == Next(cfg, Next(cfg, s, a), b)
  {
    hide Next;
    RunNothing(cfg, s);
    RunSnoc(cfg, s, [], a);
    RunSnoc(cfg, s, [a], b);
    assert [] + [a] == [a] && [a] + [b] == [a, b];
  }

  lemma RunFour(cfg: Config, s: Sys, a: Action, b: Action, d: Action, e: Action)
    requires cfg.windowSec >= 1
    ensures Run(cfg, s, [a, b, d, e]) == Next(cfg, Next(cfg, Next(cfg, Next(cfg, s, a), b), d), e)
  {
    hide Next, Run;
    RunTwo(cfg, s, a, b);
    RunTwo(cfg, Run(cfg, s, [a, b]), d, e);
    RunConcat(cfg, s, [a, b], [d, e]);
    assert [a, b] + [d, e] == [a, b, d, e];
  }

  // ------------------------------------------------------------------ INCRs after their bucket

  /** The requests `k` to `n - 1` of bucket 0 have not reached Redis yet. */
  ghost predicate Waiting(cl: Client, k: nat, n: nat) {
    forall p: Pid | k <= p < n :: p in cl.waiting && cl.waiting[p] == 0
  }

  /** At time zero `n` requests have arrived. */
  ghost predicate AllArrived(s: Sys, c: string, n: nat) {
    s.now == 0 && s.store == map[] && s.Of(c).hits == []
    && Waiting(s.Of(c), 0, n) && forall p | p in s.Of(c).waiting :: p < n
  }

  lemma {:induction false} Arrivals(cfg: Config, c: string, n: nat) returns (trace: seq<Action>)
    requires Sound(cfg)
    ensures AllArrived(Run(cfg, INIT, trace), c, n)
  {
    hide Run;
    if n == 0 {
      trace := [];
      RunNothing(cfg, INIT);
    } else {
      var before := Arrivals(cfg, c, n - 1);
      RunSnoc(cfg, INIT, before, Arrive(c, n - 1));
      trace := before + [Arrive(c, n - 1)];
    }
  }

  /** Of `n` requests of bucket 0, `k` were allowed and the bucket's counter has lapsed. */
  ghost predicate Lapsed(s: Sys, c: string, n: nat, k: nat) {
    && Waiting(s.Of(c), k, n)
    && |s.Of(c).hits| == k
    && (forall i | 0 <= i < k :: s.Of(c).hits[i].bucket == 0 && s.Of(c).hits[i].status.Allowed?)
    && !Alive(s.store, RedisKey(c, 0), s.now)
  }

  lemma LateRequest(cfg: Config, c: string, s: Sys, n: nat, k: nat) returns (trace: seq<Action>)
    requires Sound(cfg) && cfg.limit >= 1 && k < n && Lapsed(s, c, n, k)
    ensures Lapsed(Run(cfg, s, trace), c, n, k + 1)
  {
    hide Run, RedisKey;
    trace := [Incr(c, k, NoFault), Expire(c, k, NoFault), Reply(c, k), Tick(cfg.ttl)];
    RunFour(cfg, s, trace[0], trace[1], trace[2], trace[3]);
    var hits := s.Of(c).hits;
    var s1 := Next(cfg, s, trace[0]);
    assert s1.Of(c).hits == hits + [Hit(0, s.now, 1, AtExpire)];
    assert Waiting(s1.Of(c), k + 1, n);
    var s2 := Next(cfg, s1, trace[1]);
    assert s2.Of(c).hits == hits + [Hit(0, s.now, 1, AtReply)] && s2.Of(c).waiting == s1.Of(c).waiting;
    var s3 := Next(cfg, s2, trace[2]);
    assert s3.Of(c).hits == hits + [Hit(0, s.now, 1, Allowed(s.now, cfg.limit - 1))];
    assert s3.Of(c).waiting == s1.Of(c).waiting && s3.store == s2.store;
  }

  lemma {:induction false} LateRequests(cfg: Config, c: string, s: Sys, n: nat, k: nat) returns (trace: seq<Action>)
    requires Sound(cfg) && cfg.limit >= 1 && k <= n && Lapsed(s, c, n, k)
    ensures Lapsed(Run(cfg, s, trace), c, n, n)
    decreases n - k
  {
    hide Run, Lapsed;
    if k == n {
      trace := [];
      RunNothing(cfg, s);
    } else {
      var first := LateRequest(cfg, c, s, n, k);
      var rest := LateRequests(cfg, c, Run(cfg, s, first), n, k + 1);
      RunConcat(cfg, s, first, rest);
      trace := first + rest;
    }
  }

  lemma {:induction false} AllAllowed(hits: seq<Hit>, b: Bucket)
    requires forall i | 0 <= i < |hits| :: hits[i].bucket == b && hits[i].status.Allowed?
    ensures Allows(hits, b) == |hits|
  {
    if hits == [] {
    } else {
      AllAllowed(hits[..|hits| - 1], b);
    }
  }

  /** INCRs delayed past the life of the counter are each counted from one again: for every positive limit
      and every number there is a run that allows that many requests of one bucket. */
  lemma LateIncrBreaksQuota(cfg: Config, c: string, n: nat) returns (trace: seq<Action>)
    requires Sound(cfg) && cfg.limit >= 1
    ensures Allows(Run(cfg, INIT, trace).Of(c).hits, 0) == n
    ensures n > Quota(cfg) ==> !OnTime(cfg, Run(cfg, INIT, trace).Of(c).hits, 0)
  {
    hide Run, RedisKey;
    var first := Arrivals(cfg, c, n);
    var rest := LateRequests(cfg, c, Run(cfg, INIT, first), n, 0);
    RunConcat(cfg, INIT, first, rest);
    trace := first + rest;
    AllAllowed(Run(cfg, INIT, trace).Of(c).hits, 0);
    QuotaPerCounter(cfg, trace, c, 0);
  }

  // ------------------------------------------------------------------ answers long after their INCRs

  /** One request in each of the first `n` buckets, counted at the bucket's start; the first `k` answered
      at `t`. */
  ghost predicate Queued(cfg: Config, s: Sys, c: string, n: nat, k: nat, t: Time) {
    && s.now == Start(cfg, n)
    && s.Of(c).waiting == map[]
    && |s.Of(c).hits| == n
    && (forall i | 0 <= i < n ::
          s.Of(c).hits[i] == Hit(i, Start(cfg, i), 1, if i < k then Allowed(t, cfg.limit - 1) else AtReply))
    && (forall b | b >= n :: RedisKey(c, b) !in s.store)
  }

  lemma BucketAtStart(cfg: Config, b: Bucket)
    requires cfg.windowSec >= 1
    ensures BucketAt(cfg, Start(cfg, b)) == b && InWindow(cfg, b, Start(cfg, b))
  {
    BucketContains(cfg, Start(cfg, b));
    WindowsDisjoint(cfg, b, BucketAt(cfg, Start(cfg, b)), Start(cfg, b));
  }

  lemma QueueOne(cfg: Config, c: string, s: Sys, n: nat) returns (trace: seq<Action>)
    requires Sound(cfg) && Queued(cfg, s, c, n, 0, 0)
    ensures Queued(cfg, Run(cfg, s, trace), c, n + 1, 0, 0)
  {
    hide Run, RedisKey, BucketAt, Start;
    trace := [Arrive(c, 0), Incr(c, 0, NoFault), Expire(c, n, NoFault), Tick(Width(cfg))];
    RunFour(cfg, s, trace[0], trace[1], trace[2], trace[3]);
    BucketAtStart(cfg, n);
    StartStep(cfg, n);
    forall b | b > n
      ensures RedisKey(c, b) != RedisKey(c, n)
    {
      if RedisKey(c, b) == RedisKey(c, n) {
        RedisKeyInjective(c, b, c, n);
      }
    }
    var hits := s.Of(c).hits;
    var s1 := Next(cfg, s, trace[0]);
    assert s1.Of(c).waiting == map[0 := n] && s1.Of(c).hits == hits && s1.store == s.store;
    var s2 := Next(cfg, s1, trace[1]);
    assert s2.Of(c).waiting == map[] && s2.Of(c).hits == hits + [Hit(n, s.now, 1, AtExpire)];
    var s3 := Next(cfg, s2, trace[2]);
    assert s3.Of(c).waiting == map[] && s3.Of(c).hits == hits + [Hit(n, s.now, 1, AtReply)];
  }

  lemma {:induction false} Queue(cfg: Config, c: string, n: nat) returns (trace: seq<Action>)
    requires Sound(cfg)
    ensures Queued(cfg, Run(cfg, INIT, trace), c, n, 0, 0)
  {
    hide Run, RedisKey;
    if n == 0 {
      trace := [];
      RunNothing(cfg, INIT);
    } else {
      var before := Queue(cfg, c, n - 1);
      var last := QueueOne(cfg, c, Run(cfg, INIT, before), n - 1);
      RunConcat(cfg, INIT, before, last);
      trace := before + last;
    }
  }

  lemma {:induction false} AnswerAll(cfg: Config, c: string, s: Sys, n: nat, k: nat) returns (trace: seq<Action>)
    requires Sound(cfg) && cfg.limit >= 1 && k <= n && Queued(cfg, s, c, n, 0, 0)
    ensures Queued(cfg, Run(cfg, s, trace), c, n, k, s.now)
  {
    hide Run, RedisKey, Start;
    if k == 0 {
      trace := [];
      RunNothing(cfg, s);
    } else {
      var before := AnswerAll(cfg, c, s, n, k - 1);
      RunSnoc(cfg, s, before, Reply(c, k - 1));
      trace := before + [Reply(c, k - 1)];
    }
  }

  lemma {:induction false} AllAnswered(hits: seq<Hit>, lo: Time, hi: Time)
    requires forall i | 0 <= i < |hits| :: hits[i].status.Allowed? && lo <= hits[i].status.at < hi
    ensures AnsweredBetween(hits, lo, hi) == |hits|
  {
    if hits == [] {
    } else {
      AllAnswered(hits[..|hits| - 1], lo, hi);
    }
  }

  /** When answers may come arbitrarily long after their INCRs, no number bounds the allow answers of a
      single nanosecond, although every INCR landed in its window. */
  lemma SlowAnswersPileUp(cfg: Config, c: string, n: nat) returns (trace: seq<Action>)
    requires Sound(cfg) && cfg.limit >= 1
    ensures var s := Run(cfg, INIT, trace);
      AllOnTime(cfg, s.Of(c).hits) && AnsweredBetween(s.Of(c).hits, s.now, s.now + 1) == n
  {
    hide Run, RedisKey, Start;
    var first := Queue(cfg, c, n);
    var rest := AnswerAll(cfg, c, Run(cfg, INIT, first), n, n);
    RunConcat(cfg, INIT, first, rest);
    trace := first + rest;
    var s := Run(cfg, INIT, trace);
    forall i | 0 <= i < n
      ensures InWindow(cfg, s.Of(c).hits[i].bucket, s.Of(c).hits[i].at)
    {
      BucketAtStart(cfg, i);
    }
    AllAnswered(s.Of(c).hits, s.now, s.now + 1);
  }
}
