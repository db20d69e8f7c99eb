/** The fixed-window rate limiter that all API replicas share through one Redis.

    A request reads the clock when it arrives and derives its bucket from it. Its INCR and, for the
    first hit of a counter, its EXPIRE are separate atomic Redis steps, and the answer is made later
    still; the steps of all requests interleave freely, time passes between any two, and each Redis
    call may fail with or without effect. Actions that are not enabled change nothing, so every list of
    actions is a run. */
module RateLimiter {
  import opened Prelude
  import Decimal

  /** `limit` requests per window of `windowSec` seconds; `ttl` is the life EXPIRE gives a counter. */
  datatype Config = Config(limit: int, windowSec: nat, ttl: nat)

  /** The window in whole seconds, cut off, and at least one. */
  function WindowSec(window: int): (sec: nat)
    ensures window < NANOS_PER_SECOND ==> sec == 1
    ensures window >= NANOS_PER_SECOND ==> sec >= 1 && sec * NANOS_PER_SECOND <= window < (sec + 1) * NANOS_PER_SECOND
  {
    if window < NANOS_PER_SECOND then 1 else window / NANOS_PER_SECOND
  }

  function Width(cfg: Config): nat {
    cfg.windowSec * NANOS_PER_SECOND
  }

  /** What is assumed of Redis: EXPIRE with the window keeps a key for at least the bucket's width. */
  predicate Sound(cfg: Config) {
    cfg.windowSec >= 1 && cfg.ttl >= Width(cfg)
  }

  /** The limiter built from a limit and a window in nanoseconds. EXPIRE counts in whole seconds too, one at
      least for a positive window; a window that is not positive makes it delete the counter at once, so
      then nothing can be promised. */
  function Configured(limit: int, window: int): (cfg: Config)
    ensures cfg.limit == limit && cfg.windowSec == WindowSec(window)
    ensures window > 0 ==> cfg.ttl == Width(cfg)
    ensures Sound(cfg) <==> window > 0
    ensures window >= NANOS_PER_SECOND ==> Width(cfg) <= window < Width(cfg) + NANOS_PER_SECOND
  {
    Config(limit, WindowSec(window), if window > 0 then WindowSec(window) * NANOS_PER_SECOND else 0)
  }

  type Time = nat
  type Pid = nat
  type Bucket = nat

  /** `now.Unix() / windowSec`. */
  function BucketAt(cfg: Config, now: Time): Bucket
    requires cfg.windowSec >= 1
  {
    (now / NANOS_PER_SECOND) / cfg.windowSec
  }

  function Start(cfg: Config, b: Bucket): Time {
    b * Width(cfg)
  }

  predicate InWindow(cfg: Config, b: Bucket, t: Time) {
    Start(cfg, b) <= t < Start(cfg, b) + Width(cfg)
  }

  /** The Redis key `rl:<client>:<bucket>`. */
  function RedisKey(client: string, b: Bucket): string {
    "rl:" + client + ":" + Decimal.Digits(b)
  }

  datatype Counter = Counter(count: nat, expiresAt: Option<Time>)

  type Store = map<string, Counter>

  predicate Alive(store: Store, key: string, now: Time) {
    key in store && (store[key].expiresAt.Some? ==> now < store[key].expiresAt.value)
  }

  /** INCR: one more than the live counter, or a fresh counter without a time to live. */
  function Incremented(store: Store, key: string, now: Time): Counter {
    if Alive(store, key, now) then store[key].(count := store[key].count + 1) else Counter(1, None)
  }

  /** EXPIRE: does nothing when the key is gone. */
  function Expired(store: Store, key: string, now: Time, ttl: nat): Store {
    if Alive(store, key, now) then store[key := store[key].(expiresAt := Some(now + ttl))] else store
  }

  datatype Status =
    | AtExpire
    | AtReply
    | Allowed(at: Time, remaining: int)
    | Denied(at: Time, retryAfter: nat)
    | Errored

  /** A request that Redis has counted: `at` is the instant of its INCR; the status of an answered request
      carries the instant of its answer. */
  datatype Hit = Hit(bucket: Bucket, at: Time, count: nat, status: Status)

  /** One client address: the requests that have not reached Redis yet, with their buckets; those that
      were counted, in the order of their INCRs; and the buckets of those whose INCR failed. */
  datatype Client = Client(arrived: nat, waiting: map<Pid, Bucket>, hits: seq<Hit>, lost: seq<Bucket>)

  const NOBODY: Client := Client(0, map[], [], [])

  datatype Sys = Sys(now: Time, store: Store, clients: map<string, Client>)
  {
    function Of(c: string): Client {
      if c in clients then clients[c] else NOBODY
    }
  }

  const INIT: Sys := Sys(0, map[], map[])

  datatype Action =
    | Tick(nanos: nat)
    | Arrive(client: string, p: Pid)
    | Incr(client: string, p: Pid, fault: Fault)
    | Expire(client: string, i: nat, fault: Fault)
    | Reply(client: string, i: nat)

  function DoArrive(cfg: Config, now: Time, cl: Client, p: Pid): Client
    requires cfg.windowSec >= 1
  {
    if p in cl.waiting then cl
    else cl.(arrived := cl.arrived + 1, waiting := cl.waiting[p := BucketAt(cfg, now)])
  }

  function DoIncr(now: Time, cl: Client, p: Pid, fault: Fault, count: nat): Client
    requires p in cl.waiting
  {
    var b, rest := cl.waiting[p], cl.waiting - {p};
    if fault == Lost then cl.(waiting := rest, lost := cl.lost + [b])
    else
      var status := if fault == Ambiguous then Errored else if count == 1 then AtExpire else AtReply;
      cl.(waiting := rest, hits := cl.hits + [Hit(b, now, count, status)])
  }

  /** How long a request refused at `now` is told to wait. */
  function RetryAfter(cfg: Config, b: Bucket, now: Time): nat {
    Max(0, Start(cfg, b) + Width(cfg) - now)
  }

  function Answer(cfg: Config, hit: Hit, now: Time): Status {
    if hit.count > cfg.limit then Denied(now, RetryAfter(cfg, hit.bucket, now))
    else Allowed(now, Max(cfg.limit - hit.count, 0))
  }

  function SetStatus(cl: Client, i: nat, status: Status): Client
    requires i < |cl.hits|
  {
    cl.(hits := cl.hits[i := cl.hits[i].(status := status)])
  }

  function Put(s: Sys, c: string, cl: Client): Sys {
    s.(clients := s.clients[c := cl])
  }

  function Next(cfg: Config, s: Sys, a: Action): Sys
    requires cfg.windowSec >= 1
  {
    match a
    case Tick(nanos) => s.(now := s.now + nanos)
    case Arrive(c, p) => Put(s, c, DoArrive(cfg, s.now, s.Of(c), p))
    case Incr(c, p, fault) =>
      if p in s.Of(c).waiting then
        var key := RedisKey(c, s.Of(c).waiting[p]);
        var counter := Incremented(s.store, key, s.now);
        Put(s, c, DoIncr(s.now, s.Of(c), p, fault, counter.count))
          .(store := if fault == Lost then s.store else s.store[key := counter])
      else s
    case Expire(c, i, fault) =>
      if i < |s.Of(c).hits| && s.Of(c).hits[i].status.AtExpire? then
        var key := RedisKey(c, s.Of(c).hits[i].bucket);
        Put(s, c, SetStatus(s.Of(c), i, if fault == NoFault then AtReply else Errored))
          .(store := if fault == Lost then s.store else Expired(s.store, key, s.now, cfg.ttl))
      else s
    case Reply(c, i) =>
      if i < |s.Of(c).hits| && s.Of(c).hits[i].status.AtReply? then
        Put(s, c, SetStatus(s.Of(c), i, Answer(cfg, s.Of(c).hits[i], s.now)))
      else s
  }

  function Run(cfg: Config, s: Sys, trace: seq<Action>): Sys
    requires cfg.windowSec >= 1
  {
    if trace == [] then s
    else Next(cfg, Run(cfg, s, trace[..|trace| - 1]), trace[|trace| - 1])
  }

  lemma RunSnoc(cfg: Config, s: Sys, trace: seq<Action>, a: Action)
    requires cfg.windowSec >= 1
    ensures Run(cfg, s, trace + [a]) == Next(cfg, Run(cfg, s, trace), a)
  {
    assert (trace + [a])[..|trace|] == trace;
  }

  lemma {:induction false} RunConcat(cfg: Config, s: Sys, first: seq<Action>, second: seq<Action>)
    requires cfg.windowSec >= 1
    ensures Run(cfg, s, first + second) == Run(cfg, Run(cfg, s, first), second)
    decreases |second|
  {
    if second == [] {
      assert first + second == first;
    } else {
      var n := |second| - 1;
      RunConcat(cfg, s, first, second[..n]);
      assert (first + second)[..|first + second| - 1] == first + second[..n];
    }
  }

  /** However many colons a client address holds, two requests share a Redis key only if they share both
      the client and the bucket. */
  lemma RedisKeyInjective(c: string, b: Bucket, c': string, b': Bucket)
    requires RedisKey(c, b) == RedisKey(c', b')
    ensures c == c' && b == b'
  {
    var k, k' := RedisKey(c, b), RedisKey(c', b');
    assert k[3..] == c + ":" + Decimal.Digits(b);
    assert k'[3..] == c' + ":" + Decimal.Digits(b');
    Decimal.SuffixInjective(c, b, c', b');
  }

  /** The format of the key: `rl:`, the client, a colon and the bucket in decimal. */
  lemma RedisKeyFormat(c: string, b: Bucket)
    ensures exists digits :: RedisKey(c, b) == "rl:" + c + ":" + digits && Decimal.Prints(digits, b)
  {
    Decimal.DigitsPrint(b);
  }

  // ------------------------------------------------------------------ windows

  lemma MulMono(a: nat, b: nat, w: nat)
    requires a <= b
    ensures a * w <= b * w
  {
  }

  /** The bucket of a request is the window its clock reading falls into. */
  lemma BucketContains(cfg: Config, now: Time)
    requires cfg.windowSec >= 1
    ensures InWindow(cfg, BucketAt(cfg, now), now)
  {
    var sec, w := now / NANOS_PER_SECOND, cfg.windowSec;
    var b := sec / w;
    assert sec == b * w + sec % w;
    assert b * w <= sec < b * w + w;
    assert Start(cfg, b) == (b * w) * NANOS_PER_SECOND;
  }

  lemma WindowsDisjoint(cfg: Config, b: Bucket, b': Bucket, t: Time)
    requires cfg.windowSec >= 1 && InWindow(cfg, b, t) && InWindow(cfg, b', t)
    ensures b == b'
  {
    StartStep(cfg, b);
    StartStep(cfg, b');
    if b < b' {
      MulMono(b + 1, b', Width(cfg));
    } else if b' < b {
      MulMono(b' + 1, b, Width(cfg));
    }
  }

  lemma StartStep(cfg: Config, b: Bucket)
    ensures Start(cfg, b + 1) == Start(cfg, b) + Width(cfg)
  {
  }
}
