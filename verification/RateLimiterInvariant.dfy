/** What every run of the rate limiter keeps: each hit of a bucket counts one more than the one before it
    or, when the counter has lapsed, starts again at one. As long as every INCR of the bucket landed inside
    the bucket's window the counts are 1, 2, 3, … and the counter outlives the bucket. */
module RateLimiterInvariant {
  import opened Prelude
  import opened RateLimiter

  /** The number of hits of a bucket. */
  function Count(hits: seq<Hit>, b: Bucket): nat {
    if hits == [] then 0
    else Count(hits[..|hits| - 1], b) + if hits[|hits| - 1].bucket == b then 1 else 0
  }

  ghost predicate OnTime(cfg: Config, hits: seq<Hit>, b: Bucket) {
    forall i | 0 <= i < |hits| && hits[i].bucket == b :: InWindow(cfg, b, hits[i].at)
  }

  ghost predicate Ranked(hits: seq<Hit>, b: Bucket) {
    forall i | 0 <= i < |hits| && hits[i].bucket == b :: hits[i].count == Count(hits[..i], b) + 1
  }

  ghost predicate CounterOk(cfg: Config, store: Store, key: string, b: Bucket, n: nat) {
    n > 0 ==>
      && key in store
      && store[key].count == n
      && (store[key].expiresAt.Some? ==> store[key].expiresAt.value >= Start(cfg, b) + Width(cfg))
  }

  /** The count of a bucket's latest hit. */
  function LastCount(hits: seq<Hit>, b: Bucket): nat {
    if hits == [] then 0
    else if hits[|hits| - 1].bucket == b then hits[|hits| - 1].count
    else LastCount(hits[..|hits| - 1], b)
  }

  /** How often the counter of a bucket was created: once, and again whenever it had lapsed. */
  function Creations(hits: seq<Hit>, b: Bucket): nat {
    if hits == [] then 0
    else
      var last := hits[|hits| - 1];
      Creations(hits[..|hits| - 1], b) + if last.bucket == b && last.count == 1 then 1 else 0
  }

  /** Every hit of the bucket counts one more than the one before it, or one. */
  predicate Chained(hits: seq<Hit>, b: Bucket) {
    hits == [] ||
    var init, last := hits[..|hits| - 1], hits[|hits| - 1];
    Chained(init, b) && (last.bucket == b ==> last.count == 1 || last.count == LastCount(init, b) + 1)
  }

  function StoredCount(store: Store, key: string): nat {
    if key in store then store[key].count else 0
  }

  ghost predicate ChainInv(store: Store, key: string, hits: seq<Hit>, b: Bucket) {
    Chained(hits, b) && StoredCount(store, key) == LastCount(hits, b)
  }

  ghost predicate BucketInv(cfg: Config, store: Store, c: string, hits: seq<Hit>, b: Bucket) {
    && (Count(hits, b) == 0 ==> RedisKey(c, b) !in store)
    && ChainInv(store, RedisKey(c, b), hits, b)
    && (OnTime(cfg, hits, b) ==> Ranked(hits, b) && CounterOk(cfg, store, RedisKey(c, b), b, Count(hits, b)))
  }

  ghost predicate HitInv(cfg: Config, now: Time, hit: Hit) {
    && Start(cfg, hit.bucket) <= hit.at <= now
    && hit.count >= 1
    && match hit.status
       case AtExpire => hit.count == 1
       case AtReply => true
       case Allowed(at, remaining) =>
         hit.count <= cfg.limit && remaining == cfg.limit - hit.count && hit.at <= at <= now
       case Denied(at, retryAfter) =>
         hit.count > cfg.limit && hit.at <= at <= now && retryAfter == RetryAfter(cfg, hit.bucket, at)
       case Errored => true
  }

  ghost predicate ClientInv(cfg: Config, now: Time, cl: Client) {
    && cl.arrived == |cl.waiting| + |cl.hits| + |cl.lost|
    && (forall p | p in cl.waiting :: Start(cfg, cl.waiting[p]) <= now)
    && (forall i | 0 <= i < |cl.hits| :: HitInv(cfg, now, cl.hits[i]))
  }

  ghost predicate BucketsInv(cfg: Config, store: Store, c: string, hits: seq<Hit>) {
    forall b :: BucketInv(cfg, store, c, hits, b)
  }

  ghost predicate Inv(cfg: Config, s: Sys) {
    && (forall c :: ClientInv(cfg, s.now, s.Of(c)))
    && (forall c :: BucketsInv(cfg, s.store, c, s.Of(c).hits))
  }

  // ------------------------------------------------------------------ counting

  lemma {:induction false} CountSame(hits: seq<Hit>, hits': seq<Hit>, b: Bucket)
    requires |hits| == |hits'| && forall i | 0 <= i < |hits| :: hits'[i].bucket == hits[i].bucket
    ensures Count(hits', b) == Count(hits, b)
  {
    if hits == [] {
    } else {
      CountSame(hits[..|hits| - 1], hits'[..|hits| - 1], b);
    }
  }

  lemma {:induction false} ChainSame(hits: seq<Hit>, hits': seq<Hit>, b: Bucket)
    requires |hits| == |hits'|
    requires forall i | 0 <= i < |hits| :: hits'[i].bucket == hits[i].bucket && hits'[i].count == hits[i].count
    ensures LastCount(hits', b) == LastCount(hits, b) && (Chained(hits, b) ==> Chained(hits', b))
  {
    if hits == [] {
    } else {
      ChainSame(hits[..|hits| - 1], hits'[..|hits| - 1], b);
    }
  }

  lemma ChainSnoc(hits: seq<Hit>, hit: Hit, b: Bucket)
    requires Chained(hits, b) && (hit.bucket == b ==> hit.count == 1 || hit.count == LastCount(hits, b) + 1)
    ensures Chained(hits + [hit], b)
    ensures LastCount(hits + [hit], b) == if hit.bucket == b then hit.count else LastCount(hits, b)
  {
    assert (hits + [hit])[..|hits|] == hits;
  }

  lemma CountSnoc(hits: seq<Hit>, hit: Hit, b: Bucket)
    ensures Count(hits + [hit], b) == Count(hits, b) + if hit.bucket == b then 1 else 0
  {
    assert (hits + [hit])[..|hits|] == hits;
  }

  lemma RankedSnoc(hits: seq<Hit>, hit: Hit, b: Bucket)
    requires Ranked(hits, b) && (hit.bucket == b ==> hit.count == Count(hits, b) + 1)
    ensures Ranked(hits + [hit], b)
  {
    var more := hits + [hit];
    forall i | 0 <= i < |more| && more[i].bucket == b
      ensures more[i].count == Count(more[..i], b) + 1
    {
      assert more[..i] == hits[..i];
      assert hits[..|hits|] == hits;
    }
  }

  // ------------------------------------------------------------------ one bucket

  /** A step that touches neither the bucket's hits nor its counter. */
  lemma OtherBucket(cfg: Config, store: Store, store': Store, c: string, hits: seq<Hit>, b: Bucket)
    requires BucketInv(cfg, store, c, hits, b)
    requires RedisKey(c, b) in store' <==> RedisKey(c, b) in store
    requires RedisKey(c, b) in store ==> store'[RedisKey(c, b)] == store[RedisKey(c, b)]
    ensures BucketInv(cfg, store', c, hits, b)
  {
  }

  lemma OtherHit(cfg: Config, store: Store, c: string, hits: seq<Hit>, hit: Hit, b: Bucket)
    requires BucketInv(cfg, store, c, hits, b) && hit.bucket != b
    ensures BucketInv(cfg, store, c, hits + [hit], b)
  {
    CountSnoc(hits, hit, b);
    ChainSnoc(hits, hit, b);
    var more := hits + [hit];
    if OnTime(cfg, more, b) {
      assert forall i | 0 <= i < |hits| :: hits[i] == more[i];
      RankedSnoc(hits, hit, b);
    }
  }

  lemma StatusOnly(cfg: Config, store: Store, c: string, hits: seq<Hit>, i: nat, status: Status, b: Bucket)
    requires BucketInv(cfg, store, c, hits, b) && i < |hits|
    ensures BucketInv(cfg, store, c, hits[i := hits[i].(status := status)], b)
  {
    var hits' := hits[i := hits[i].(status := status)];
    CountSame(hits, hits', b);
    assert forall j | 0 <= j < |hits| ::
      hits'[j].bucket == hits[j].bucket && hits'[j].at == hits[j].at && hits'[j].count == hits[j].count;
    ChainSame(hits, hits', b);
    if OnTime(cfg, hits', b) {
      assert forall j | 0 <= j < |hits| :: hits[j].bucket == b ==> hits'[j].bucket == b;
      assert OnTime(cfg, hits, b);
      forall j | 0 <= j < |hits'| && hits'[j].bucket == b
        ensures hits'[j].count == Count(hits'[..j], b) + 1
      {
        CountSame(hits[..j], hits'[..j], b);
      }
    }
  }

  /** An INCR of the bucket: no counter expires inside its own bucket, so on-time hits count up by one. */
  lemma IncrBucket(cfg: Config, store: Store, c: string, hits: seq<Hit>, b: Bucket, now: Time, status: Status)
    requires BucketInv(cfg, store, c, hits, b)
    ensures var counter := Incremented(store, RedisKey(c, b), now);
      BucketInv(cfg, store[RedisKey(c, b) := counter], c, hits + [Hit(b, now, counter.count, status)], b)
  {
    hide Start, Width, RedisKey;
    var key := RedisKey(c, b);
    var counter := Incremented(store, key, now);
    var hit := Hit(b, now, counter.count, status);
    var more := hits + [hit];
    CountSnoc(hits, hit, b);
    ChainSnoc(hits, hit, b);
    if OnTime(cfg, more, b) {
      assert forall i | 0 <= i < |hits| :: hits[i] == more[i];
      assert OnTime(cfg, hits, b);
      assert more[|hits|] == hit && InWindow(cfg, b, now);
      assert counter.count == Count(hits, b) + 1;
      RankedSnoc(hits, hit, b);
    }
  }

  /** An EXPIRE sent once the bucket has started lets the counter live to the end of the bucket. */
  lemma ExpireBucket(cfg: Config, store: Store, c: string, hits: seq<Hit>, b: Bucket, now: Time)
    requires Sound(cfg) && BucketInv(cfg, store, c, hits, b) && Start(cfg, b) <= now
    ensures BucketInv(cfg, Expired(store, RedisKey(c, b), now, cfg.ttl), c, hits, b)
  {
  }

  // ------------------------------------------------------------------ one step

  lemma LaterClient(cfg: Config, now: Time, now': Time, cl: Client)
    requires ClientInv(cfg, now, cl) && now <= now'
    ensures ClientInv(cfg, now', cl)
  {
  }

  lemma ArriveClient(cfg: Config, now: Time, cl: Client, p: Pid)
    requires cfg.windowSec >= 1 && ClientInv(cfg, now, cl)
    ensures ClientInv(cfg, now, DoArrive(cfg, now, cl, p)) && DoArrive(cfg, now, cl, p).hits == cl.hits
  {
    BucketContains(cfg, now);
  }

  lemma IncrClient(cfg: Config, now: Time, cl: Client, p: Pid, fault: Fault, count: nat)
    requires ClientInv(cfg, now, cl) && p in cl.waiting && count >= 1
    ensures ClientInv(cfg, now, DoIncr(now, cl, p, fault, count))
  {
    var rest := cl.waiting - {p};
    assert rest.Keys == cl.waiting.Keys - {p};
    assert |rest| == |cl.waiting| - 1;
  }

  lemma StatusClient(cfg: Config, now: Time, cl: Client, i: nat, status: Status)
    requires ClientInv(cfg, now, cl) && i < |cl.hits|
    requires HitInv(cfg, now, cl.hits[i].(status := status))
    ensures ClientInv(cfg, now, SetStatus(cl, i, status))
  {
  }

  lemma TouchesOneKey(cfg: Config, store: Store, store': Store, c: string, b: Bucket, c': string, hits: seq<Hit>)
    requires BucketsInv(cfg, store, c', hits) && c' != c
    requires forall key | key != RedisKey(c, b) ::
      (key in store' <==> key in store) && (key in store ==> store'[key] == store[key])
    ensures BucketsInv(cfg, store', c', hits)
  {
    forall b'
      ensures BucketInv(cfg, store', c', hits, b')
    {
      if RedisKey(c', b') == RedisKey(c, b) {
        RedisKeyInjective(c', b', c, b);
      }
      OtherBucket(cfg, store, store', c', hits, b');
    }
  }

  lemma IncrBuckets(cfg: Config, store: Store, c: string, hits: seq<Hit>, b: Bucket, now: Time, status: Status)
    requires BucketsInv(cfg, store, c, hits)
    ensures var counter := Incremented(store, RedisKey(c, b), now);
      BucketsInv(cfg, store[RedisKey(c, b) := counter], c, hits + [Hit(b, now, counter.count, status)])
  {
    hide Incremented, RedisKey;
    var counter := Incremented(store, RedisKey(c, b), now);
    var hit := Hit(b, now, counter.count, status);
    var more, store' := hits + [hit], store[RedisKey(c, b) := counter];
    forall b'
      ensures BucketInv(cfg, store', c, more, b')
    {
      assert BucketInv(cfg, store, c, hits, b');
      if b' == b {
        IncrBucket(cfg, store, c, hits, b, now, status);
      } else {
        if RedisKey(c, b') == RedisKey(c, b) {
          RedisKeyInjective(c, b', c, b);
        }
        OtherBucket(cfg, store, store', c, hits, b');
        OtherHit(cfg, store', c, hits, hit, b');
      }
    }
  }

  lemma ExpireBuckets(cfg: Config, store: Store, c: string, hits: seq<Hit>, b: Bucket, now: Time)
    requires Sound(cfg) && BucketsInv(cfg, store, c, hits) && Start(cfg, b) <= now
    ensures BucketsInv(cfg, Expired(store, RedisKey(c, b), now, cfg.ttl), c, hits)
  {
    hide RedisKey, Start, Width;
    forall b'
      ensures BucketInv(cfg, Expired(store, RedisKey(c, b), now, cfg.ttl), c, hits, b')
    {
      assert BucketInv(cfg, store, c, hits, b');
      if b' == b {
        ExpireBucket(cfg, store, c, hits, b, now);
      } else {
        if RedisKey(c, b') == RedisKey(c, b) {
          RedisKeyInjective(c, b', c, b);
        }
        OtherBucket(cfg, store, Expired(store, RedisKey(c, b), now, cfg.ttl), c, hits, b');
      }
    }
  }

  lemma StatusBuckets(cfg: Config, store: Store, c: string, hits: seq<Hit>, i: nat, status: Status)
    requires BucketsInv(cfg, store, c, hits) && i < |hits|
    ensures BucketsInv(cfg, store, c, hits[i := hits[i].(status := status)])
  {
    var hits' := hits[i := hits[i].(status := status)];
    forall b
      ensures BucketInv(cfg, store, c, hits', b)
    {
      StatusOnly(cfg, store, c, hits, i, status, b);
    }
  }

  /** Put the pieces together: one client and one counter changed. */
  lemma Assemble(cfg: Config, s: Sys, c: string, b: Bucket, cl: Client, store': Store)
    requires Inv(cfg, s)
    requires ClientInv(cfg, s.now, cl) && BucketsInv(cfg, store', c, cl.hits)
    requires forall key | key != RedisKey(c, b) ::
      (key in store' <==> key in s.store) && (key in s.store ==> store'[key] == s.store[key])
    ensures Inv(cfg, Put(s, c, cl).(store := store'))
  {
    var s' := Put(s, c, cl).(store := store');
    forall c'
      ensures ClientInv(cfg, s'.now, s'.Of(c')) && BucketsInv(cfg, store', c', s'.Of(c').hits)
    {
      if c' != c {
        assert s'.Of(c') == s.Of(c');
        assert ClientInv(cfg, s.now, s.Of(c'));
        TouchesOneKey(cfg, s.store, store', c, b, c', s.Of(c').hits);
      }
    }
  }

  lemma IncrKeepsInv(cfg: Config, s: Sys, c: string, p: Pid, fault: Fault)
    requires Sound(cfg) && Inv(cfg, s)
    ensures Inv(cfg, Next(cfg, s, Incr(c, p, fault)))
  {
    hide RedisKey, Start, Width;
    var cl := s.Of(c);
    assert ClientInv(cfg, s.now, cl) && BucketsInv(cfg, s.store, c, cl.hits);
    if p in cl.waiting {
      var b := cl.waiting[p];
      var key := RedisKey(c, b);
      var counter := Incremented(s.store, key, s.now);
      var cl' := DoIncr(s.now, cl, p, fault, counter.count);
      IncrClient(cfg, s.now, cl, p, fault, counter.count);
      if fault == Lost {
        Assemble(cfg, s, c, b, cl', s.store);
      } else {
        IncrBuckets(cfg, s.store, c, cl.hits, b, s.now, cl'.hits[|cl.hits|].status);
        Assemble(cfg, s, c, b, cl', s.store[key := counter]);
      }
    }
  }

  lemma ExpireKeepsInv(cfg: Config, s: Sys, c: string, i: nat, fault: Fault)
    requires Sound(cfg) && Inv(cfg, s)
    ensures Inv(cfg, Next(cfg, s, Expire(c, i, fault)))
  {
    hide RedisKey, Start, Width;
    var cl := s.Of(c);
    assert ClientInv(cfg, s.now, cl) && BucketsInv(cfg, s.store, c, cl.hits);
    if i < |cl.hits| && cl.hits[i].status.AtExpire? {
      var b := cl.hits[i].bucket;
      assert HitInv(cfg, s.now, cl.hits[i]);
      var status := if fault == NoFault then AtReply else Errored;
      var store' := if fault == Lost then s.store else Expired(s.store, RedisKey(c, b), s.now, cfg.ttl);
      if fault != Lost {
        ExpireBuckets(cfg, s.store, c, cl.hits, b, s.now);
      }
      StatusBuckets(cfg, store', c, cl.hits, i, status);
      StatusClient(cfg, s.now, cl, i, status);
      Assemble(cfg, s, c, b, SetStatus(cl, i, status), store');
    }
  }

  lemma ReplyKeepsInv(cfg: Config, s: Sys, c: string, i: nat)
    requires Sound(cfg) && Inv(cfg, s)
    ensures Inv(cfg, Next(cfg, s, Reply(c, i)))
  {
    hide RedisKey, Start, Width;
    var cl := s.Of(c);
    assert ClientInv(cfg, s.now, cl) && BucketsInv(cfg, s.store, c, cl.hits);
    if i < |cl.hits| && cl.hits[i].status.AtReply? {
      assert HitInv(cfg, s.now, cl.hits[i]);
      var status := Answer(cfg, cl.hits[i], s.now);
      StatusBuckets(cfg, s.store, c, cl.hits, i, status);
      StatusClient(cfg, s.now, cl, i, status);
      Assemble(cfg, s, c, cl.hits[i].bucket, SetStatus(cl, i, status), s.store);
    }
  }

  lemma ArriveKeepsInv(cfg: Config, s: Sys, c: string, p: Pid)
    requires Sound(cfg) && Inv(cfg, s)
    ensures Inv(cfg, Next(cfg, s, Arrive(c, p)))
  {
    var cl := s.Of(c);
    assert ClientInv(cfg, s.now, cl) && BucketsInv(cfg, s.store, c, cl.hits);
    ArriveClient(cfg, s.now, cl, p);
    Assemble(cfg, s, c, 0, DoArrive(cfg, s.now, cl, p), s.store);
  }

  lemma TickKeepsInv(cfg: Config, s: Sys, nanos: nat)
    requires Sound(cfg) && Inv(cfg, s)
    ensures Inv(cfg, Next(cfg, s, Tick(nanos)))
  {
    var s' := Next(cfg, s, Tick(nanos));
    forall c
      ensures ClientInv(cfg, s'.now, s'.Of(c)) && BucketsInv(cfg, s'.store, c, s'.Of(c).hits)
    {
      assert s'.Of(c) == s.Of(c);
      LaterClient(cfg, s.now, s'.now, s.Of(c));
    }
  }

  lemma NextKeepsInv(cfg: Config, s: Sys, a: Action)
    requires Sound(cfg) && Inv(cfg, s)
    ensures Inv(cfg, Next(cfg, s, a))
  {
    hide Inv, Next;
    match a
    case Tick(nanos) => TickKeepsInv(cfg, s, nanos);
    case Arrive(c, p) => ArriveKeepsInv(cfg, s, c, p);
    case Incr(c, p, fault) => IncrKeepsInv(cfg, s, c, p, fault);
    case Expire(c, i, fault) => ExpireKeepsInv(cfg, s, c, i, fault);
    case Reply(c, i) => ReplyKeepsInv(cfg, s, c, i);
  }

  lemma {:induction false} RunKeepsInv(cfg: Config, s: Sys, trace: seq<Action>)
    requires Sound(cfg) && Inv(cfg, s)
    ensures Inv(cfg, Run(cfg, s, trace))
  {
    hide Inv, Next;
    if trace == [] {
    } else {
      var n := |trace| - 1;
      RunKeepsInv(cfg, s, trace[..n]);
      NextKeepsInv(cfg, Run(cfg, s, trace[..n]), trace[n]);
    }
  }

  lemma Reachable(cfg: Config, trace: seq<Action>)
    requires Sound(cfg)
    ensures Inv(cfg, Run(cfg, INIT, trace))
  {
    assert Inv(cfg, INIT);
    RunKeepsInv(cfg, INIT, trace);
  }
}
