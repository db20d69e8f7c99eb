/** `redisRateLimiter.Allow` and the HTTP middleware in front of it, in the form of the program. Between
    any two steps of a request other requests act and time passes; the request is a participant in a
    run of the rate limiter. */
module RateLimitMiddleware {
  import opened Prelude
  import opened RateLimiter
  import opened RateLimiterInvariant
  import opened RateLimiterTheorems

  datatype Env = Env(others: seq<Action>, fault: Fault)

  /** Does the action act for this very request: `p` while it waits, hit `i` once it was counted? */
  predicate Mine(a: Action, c: string, p: Pid, i: Option<nat>) {
    match a
    case Arrive(d, q) => d == c && q == p && i.None?
    case Incr(d, q, _) => d == c && q == p && i.None?
    case Expire(d, j, _) => d == c && i == Some(j)
    case Reply(d, j) => d == c && i == Some(j)
    case Tick(_) => false
  }

  function Foreign(actions: seq<Action>, c: string, p: Pid, i: Option<nat>): seq<Action> {
    if actions == [] then []
    else
      var rest := Foreign(actions[..|actions| - 1], c, p, i);
      if Mine(actions[|actions| - 1], c, p, i) then rest else rest + [actions[|actions| - 1]]
  }

  /** The request stands as it did: still waiting with its bucket, or hit `i` unchanged. */
  ghost predicate Stands(s: Sys, s': Sys, c: string, p: Pid, i: Option<nat>) {
    && (i.None? && p in s.Of(c).waiting ==>
          p in s'.Of(c).waiting && s'.Of(c).waiting[p] == s.Of(c).waiting[p])
    && (i.Some? && i.value < |s.Of(c).hits| ==>
          i.value < |s'.Of(c).hits| && s'.Of(c).hits[i.value] == s.Of(c).hits[i.value])
  }

  lemma NextStands(cfg: Config, s: Sys, a: Action, c: string, p: Pid, i: Option<nat>)
    requires cfg.windowSec >= 1 && !Mine(a, c, p, i)
    ensures Stands(s, Next(cfg, s, a), c, p, i) && s.now <= Next(cfg, s, a).now
  {
    hide RedisKey, BucketAt, Incremented, Expired;
  }

  lemma {:induction false} ForeignStands(cfg: Config, s: Sys, actions: seq<Action>, c: string, p: Pid, i: Option<nat>)
    requires cfg.windowSec >= 1
    ensures Stands(s, Run(cfg, s, Foreign(actions, c, p, i)), c, p, i)
    ensures s.now <= Run(cfg, s, Foreign(actions, c, p, i)).now
  {
    hide Next;
    if actions == [] {
    } else {
      var init, a := actions[..|actions| - 1], actions[|actions| - 1];
      ForeignStands(cfg, s, init, c, p, i);
      if !Mine(a, c, p, i) {
        RunSnoc(cfg, s, Foreign(init, c, p, i), a);
        NextStands(cfg, Run(cfg, s, Foreign(init, c, p, i)), a, c, p, i);
      }
    }
  }

  /** The result of Allow: a decision, or an error that leaves the decision to the caller. */
  datatype Decision =
    | Permit(remaining: int)
    | Refuse(retryAfter: nat)
    | Unavailable

  class Redis {
    const cfg: Config
    var now: Time
    var store: Store
    var clients: map<string, Client>
    ghost var trace: seq<Action>

    function View(): Sys
      reads this
    {
      Sys(now, store, clients)
    }

    ghost predicate Valid()
      reads this
    {
      Sound(cfg) && View() == Run(cfg, INIT, trace)
    }

    constructor (limit: int, window: int)
      requires window > 0
      ensures Valid() && cfg == Configured(limit, window) && cfg.limit == limit && View() == INIT
    {
      cfg := Configured(limit, window);
      now, store, clients, trace := 0, map[], map[], [];
    }

    ghost method Note(before: Sys, a: Action)
      requires Sound(cfg) && before == Run(cfg, INIT, trace) && View() == Next(cfg, before, a)
      modifies this`trace
      ensures Valid() && trace == old(trace) + [a]
    {
      RunSnoc(cfg, INIT, trace, a);
      trace := trace + [a];
    }

    method Interfere(c: string, p: Pid, i: Option<nat>, others: seq<Action>)
      requires Valid()
      modifies this
      ensures Valid() && old(trace) <= trace && old(now) <= now
      ensures Stands(old(View()), View(), c, p, i)
    {
      hide Run;
      ForeignStands(cfg, View(), others, c, p, i);
      RunConcat(cfg, INIT, trace, Foreign(others, c, p, i));
      var s := Run(cfg, View(), Foreign(others, c, p, i));
      now, store, clients := s.now, s.store, s.clients;
      trace := trace + Foreign(others, c, p, i);
    }

    /** The client entry with one request's step applied. */
    method PutClient(c: string, cl: Client)
      modifies this`clients
      ensures clients == old(clients)[c := cl]
    {
      clients := clients[c := cl];
    }
  }

  /** A client that waits so long from `now` finds a later bucket; one that waits a `unit` less does not,
      unless that is less than one unit. */
  predicate IsWait(cfg: Config, b: Bucket, now: Time, wait: nat, unit: nat)
    requires cfg.windowSec >= 1
  {
    BucketAt(cfg, now + wait) > b && (wait > unit ==> BucketAt(cfg, now + wait - unit) <= b)
  }

  lemma WaitFitsUnit(cfg: Config, b: Bucket, now: Time)
    requires cfg.windowSec >= 1 && Start(cfg, b) <= now
    ensures var wait := RetryAfter(cfg, b, now);
      && IsWait(cfg, b, now, wait, 1)
      && IsWait(cfg, b, now, RetrySeconds(wait) * NANOS_PER_SECOND, NANOS_PER_SECOND)
      && RetrySeconds(wait) <= cfg.windowSec
  {
    hide BucketAt, RetrySeconds;
    var wait := RetryAfter(cfg, b, now);
    RetryLands(cfg, b, now);
    WindowBefore(cfg, b, now + wait);
    if wait > 1 {
      WindowBefore(cfg, b, now + wait - 1);
    }
  }

  /** The limiter cannot decide: the INCR failed, or hit `i` created a counter and its EXPIRE failed. */
  predicate Undecided(env: seq<Env>, cl: Client, i: nat)
    requires |env| == 3
  {
    env[0].fault != NoFault || (i < |cl.hits| && cl.hits[i].count == 1 && env[1].fault != NoFault)
  }

  class RedisRateLimiter {
    const redis: Redis

    constructor (redis: Redis)
      ensures this.redis == redis
    {
      this.redis := redis;
    }

    /** Read the clock and derive the bucket. */
    method Arrives(c: string, p: Pid) returns (bucket: Bucket)
      requires redis.Valid() && p !in redis.View().Of(c).waiting
      modifies redis
      ensures redis.Valid() && old(redis.trace) <= redis.trace
      ensures redis.now == old(redis.now) && bucket == BucketAt(redis.cfg, redis.now)
      ensures redis.View().Of(c).arrived == old(redis.View().Of(c).arrived) + 1
      ensures p in redis.View().Of(c).waiting && redis.View().Of(c).waiting[p] == bucket
    {
      hide Run, BucketAt;
      ghost var before := redis.View();
      bucket := BucketAt(redis.cfg, redis.now);
      var cl := redis.View().Of(c);
      redis.PutClient(c, cl.(arrived := cl.arrived + 1, waiting := cl.waiting[p := bucket]));
      redis.Note(before, Arrive(c, p));
    }

    /** INCR: the reply is the new count, or an error. */
    method Increment(c: string, p: Pid, bucket: Bucket, env: Env) returns (count: Option<nat>, i: nat)
      requires redis.Valid() && p in redis.View().Of(c).waiting && redis.View().Of(c).waiting[p] == bucket
      modifies redis
      ensures redis.Valid() && old(redis.trace) <= redis.trace
      ensures count.Some? <==> env.fault == NoFault
      ensures count.Some? ==>
        i < |redis.View().Of(c).hits| &&
        redis.View().Of(c).hits[i] ==
          Hit(bucket, redis.now, count.value, if count.value == 1 then AtExpire else AtReply)
    {
      hide Run, RedisKey;
      redis.Interfere(c, p, None, env.others);
      ghost var before := redis.View();
      var cl := redis.View().Of(c);
      var key := RedisKey(c, bucket);
      var counter := Incremented(redis.store, key, redis.now);
      i := |cl.hits|;
      redis.PutClient(c, DoIncr(redis.now, cl, p, env.fault, counter.count));
      if env.fault != Lost {
        redis.store := redis.store[key := counter];
      }
      count := if env.fault == NoFault then Some(counter.count) else None;
      redis.Note(before, Incr(c, p, env.fault));
    }

    /** EXPIRE for the request that created the counter. */
    method SetExpiry(c: string, p: Pid, i: nat, env: Env) returns (ok: bool)
      requires redis.Valid() && i < |redis.View().Of(c).hits| && redis.View().Of(c).hits[i].status.AtExpire?
      modifies redis
      ensures redis.Valid() && old(redis.trace) <= redis.trace
      ensures ok <==> env.fault == NoFault
      ensures i < |redis.View().Of(c).hits|
      ensures redis.View().Of(c).hits[i] ==
        old(redis.View().Of(c).hits[i]).(status := if ok then AtReply else Errored)
      ensures var key := RedisKey(c, redis.View().Of(c).hits[i].bucket);
        ok && Alive(redis.store, key, redis.now) ==>
          redis.store[key].expiresAt == Some(redis.now + redis.cfg.ttl)
    {
      hide Run, RedisKey;
      redis.Interfere(c, p, Some(i), env.others);
      ghost var before := redis.View();
      var cl := redis.View().Of(c);
      ok := env.fault == NoFault;
      redis.PutClient(c, SetStatus(cl, i, if ok then AtReply else Errored));
      if env.fault != Lost {
        redis.store := Expired(redis.store, RedisKey(c, cl.hits[i].bucket), redis.now, redis.cfg.ttl);
      }
      redis.Note(before, Expire(c, i, env.fault));
    }

    /** Compare with the limit; on denial read the clock again for the wait. */
    method Decide(c: string, p: Pid, i: nat, env: Env) returns (d: Decision)
      requires redis.Valid() && i < |redis.View().Of(c).hits| && redis.View().Of(c).hits[i].status.AtReply?
      modifies redis
      ensures redis.Valid() && old(redis.trace) <= redis.trace
      ensures i < |redis.View().Of(c).hits|
      ensures var hit := redis.View().Of(c).hits[i];
        && hit == old(redis.View().Of(c).hits[i]).(status := hit.status)
        && hit.status == (match d
                          case Permit(remaining) => Allowed(redis.now, remaining)
                          case Refuse(retryAfter) => Denied(redis.now, retryAfter)
                          case Unavailable => Errored)
        && !d.Unavailable?
    {
      hide Run, RedisKey;
      redis.Interfere(c, p, Some(i), env.others);
      ghost var before := redis.View();
      var cl := redis.View().Of(c);
      var hit := cl.hits[i];
      if hit.count > redis.cfg.limit {
        var retryAfter := RetryAfter(redis.cfg, hit.bucket, redis.now);
        d := Refuse(retryAfter);
        redis.PutClient(c, SetStatus(cl, i, Denied(redis.now, retryAfter)));
      } else {
        var remaining := redis.cfg.limit - hit.count;
        if remaining < 0 {
          remaining := 0;
        }
        d := Permit(remaining);
        redis.PutClient(c, SetStatus(cl, i, Allowed(redis.now, remaining)));
      }
      redis.Note(before, Reply(c, i));
    }

    /** Allow. Whatever the other requests do, this one takes part in a run of the rate limiter, so all
        theorems about runs apply. Unless its INCR fails it is counted, as hit `i` of its arrival's bucket.
        It is refused exactly when that count exceeds the limit, with a wait that reaches a later bucket
        and is at most one window; otherwise it is permitted and told how much is left. It is unavailable
        exactly when its INCR fails, or its EXPIRE, which only the first hit of a counter sends. */
    method Allow(c: string, p: Pid, env: seq<Env>) returns (d: Decision, ghost i: nat)
      requires redis.Valid() && p !in redis.View().Of(c).waiting && |env| == 3
      modifies redis
      ensures redis.Valid() && old(redis.trace) <= redis.trace
      ensures env[0].fault == NoFault ==>
        i < |redis.View().Of(c).hits| && redis.View().Of(c).hits[i].bucket == BucketAt(redis.cfg, old(redis.now))
      ensures d.Unavailable? <==> Undecided(env, redis.View().Of(c), i)
      ensures !d.Unavailable? ==>
        redis.View().Of(c).hits[i].status ==
          if d.Permit? then Allowed(redis.now, d.remaining) else Denied(redis.now, d.retryAfter)
      ensures !d.Unavailable? ==> (d.Refuse? <==> redis.View().Of(c).hits[i].count > redis.cfg.limit)
      ensures d.Permit? ==> d.remaining == redis.cfg.limit - redis.View().Of(c).hits[i].count
      ensures d.Permit? ==> 0 <= d.remaining < redis.cfg.limit
      ensures d.Refuse? ==> d.retryAfter <= Width(redis.cfg)
      ensures d.Refuse? ==> IsWait(redis.cfg, BucketAt(redis.cfg, old(redis.now)), redis.now, d.retryAfter, 1)
      ensures d.Refuse? ==>
        var bucket, seconds := BucketAt(redis.cfg, old(redis.now)), RetrySeconds(d.retryAfter);
        seconds <= redis.cfg.windowSec
        && IsWait(redis.cfg, bucket, redis.now, seconds * NANOS_PER_SECOND, NANOS_PER_SECOND)
    {
      hide Run, RedisKey, BucketAt, Width, Start;
      var bucket := Arrives(c, p);
      var count, k := Increment(c, p, bucket, env[0]);
      i := k;
      if count.None? {
        return Unavailable, i;
      }
      if count.value == 1 {
        var ok := SetExpiry(c, p, k, env[1]);
        if !ok {
          return Unavailable, i;
        }
      }
      d := Decide(c, p, k, env[2]);
      DecisionIsSound(redis.View(), c, k);
    }

    /** What the invariant says about a decided hit. */
    lemma DecisionIsSound(s: Sys, c: string, i: nat)
      requires redis.Valid() && s == redis.View()
      requires i < |s.Of(c).hits|
      ensures var hit := s.Of(c).hits[i];
        && (hit.status.Allowed? ==>
              0 <= hit.status.remaining < redis.cfg.limit && hit.status.remaining == redis.cfg.limit - hit.count)
        && (hit.status.Denied? ==>
              hit.count > redis.cfg.limit &&
              hit.status.retryAfter <= Width(redis.cfg) &&
              IsWait(redis.cfg, hit.bucket, hit.status.at, hit.status.retryAfter, 1) &&
              RetrySeconds(hit.status.retryAfter) <= redis.cfg.windowSec &&
              IsWait(redis.cfg, hit.bucket, hit.status.at,
                     RetrySeconds(hit.status.retryAfter) * NANOS_PER_SECOND, NANOS_PER_SECOND))
    {
      hide Run, RedisKey, BucketAt;
      Reachable(redis.cfg, redis.trace);
      assert ClientInv(redis.cfg, s.now, s.Of(c));
      var hit := s.Of(c).hits[i];
      assert HitInv(redis.cfg, s.now, hit);
      if hit.status.Denied? {
        WaitFitsUnit(redis.cfg, hit.bucket, hit.status.at);
      }
    }
  }

  /** A request served or turned away; X-RateLimit-Remaining is set when the limiter decided. */
  datatype Response = Served(remaining: Option<int>) | TooManyRequests(remaining: Option<int>, retrySeconds: nat)

  /** The decision counters of one replica. */
  class Metrics {
    var allow: nat
    var deny: nat
    var error: nat

    constructor ()
      ensures allow == deny == error == 0
    {
      allow, deny, error := 0, 0, 0;
    }

    function View(): Decisions
      reads this
    {
      Decisions(allow, deny, error, 0)
    }
  }

  predicate Skipped(path: string, prefixes: seq<string>) {
    exists k | 0 <= k < |prefixes| :: prefixes[k] <= path
  }

  class Middleware {
    const limiter: RedisRateLimiter
    const skipPrefixes: seq<string>
    const metrics: Metrics

    constructor (limiter: RedisRateLimiter, skipPrefixes: seq<string>, metrics: Metrics)
      ensures this.limiter == limiter && this.skipPrefixes == skipPrefixes && this.metrics == metrics
    {
      this.limiter, this.skipPrefixes, this.metrics := limiter, skipPrefixes, metrics;
    }

    /** RateLimit. A request on a skipped path is served without touching the limiter or the counters. Any
        other request is recorded exactly once, under its own decision. It is turned away exactly when the
        limiter decides and Redis counted it, as hit `i`, above the limit; Retry-After is then at least one
        second and at most the window: a client that waits so long from the answer finds a later bucket, and a
        second less would not do. A request the limiter cannot decide is served. */
    method RateLimit(path: string, ip: string, p: Pid, env: seq<Env>) returns (r: Response, ghost i: nat)
      requires limiter.redis.Valid() && p !in limiter.redis.View().Of(ip).waiting && |env| == 3
      modifies limiter.redis, metrics
      ensures limiter.redis.Valid() && old(limiter.redis.trace) <= limiter.redis.trace
      ensures Skipped(path, skipPrefixes) ==>
        r == Served(None) && metrics.View() == old(metrics.View()) && limiter.redis.trace == old(limiter.redis.trace)
      ensures !Skipped(path, skipPrefixes) ==>
        metrics.View() ==
          match r
          case Served(Some(_)) => old(metrics.View()).(allow := old(metrics.allow) + 1)
          case TooManyRequests(_, _) => old(metrics.View()).(deny := old(metrics.deny) + 1)
          case Served(None) => old(metrics.View()).(error := old(metrics.error) + 1)
      ensures !Skipped(path, skipPrefixes) ==>
        var cl, limit := limiter.redis.View().Of(ip), limiter.redis.cfg.limit;
        if Undecided(env, cl, i) then r == Served(None)
        else
          && i < |cl.hits|
          && (r.TooManyRequests? <==> cl.hits[i].count > limit)
          && (cl.hits[i].count <= limit ==> r == Served(Some(limit - cl.hits[i].count)))
      ensures r.TooManyRequests? ==> r.remaining == Some(0) && 1 <= r.retrySeconds <= limiter.redis.cfg.windowSec
      ensures r.TooManyRequests? ==>
        var cfg, bucket := limiter.redis.cfg, BucketAt(limiter.redis.cfg, old(limiter.redis.now));
        && BucketAt(cfg, limiter.redis.now + r.retrySeconds * NANOS_PER_SECOND) > bucket
        && (r.retrySeconds > 1 ==>
              BucketAt(cfg, limiter.redis.now + (r.retrySeconds - 1) * NANOS_PER_SECOND) <= bucket)
    {
      hide Run, RedisKey, BucketAt;
      i := 0;
      var k := 0;
      while k < |skipPrefixes|
        invariant 0 <= k <= |skipPrefixes|
        invariant forall j | 0 <= j < k :: !(skipPrefixes[j] <= path)
      {
        if skipPrefixes[k] <= path {
          return Served(None), i;
        }
        k := k + 1;
      }
      var d;
      d, i := limiter.Allow(ip, p, env);
      match d {
        case Unavailable =>
          metrics.error := metrics.error + 1;
          r := Served(None);
        case Refuse(retryAfter) =>
          var retrySec := (retryAfter + NANOS_PER_SECOND - 1) / NANOS_PER_SECOND;
          if retrySec < 1 {
            retrySec := 1;
          }
          metrics.deny := metrics.deny + 1;
          r := TooManyRequests(Some(0), retrySec);
        case Permit(remaining) =>
          metrics.allow := metrics.allow + 1;
          r := Served(Some(remaining));
      }
    }
  }
}
