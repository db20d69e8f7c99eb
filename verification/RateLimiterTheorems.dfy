/** The guarantees of the rate limiter, for every run: quota per window, exactness without faults, quota
    over any time interval, usefulness of Retry-After, and independence of clients. */
module RateLimiterTheorems {
  import opened Prelude
  import opened RateLimiter
  import opened RateLimiterInvariant

  function Quota(cfg: Config): nat {
    Max(cfg.limit, 0)
  }

  /** The requests of a bucket that were answered with "allowed". */
  function Allows(hits: seq<Hit>, b: Bucket): nat {
    if hits == [] then 0
    else
      var last := hits[|hits| - 1];
      Allows(hits[..|hits| - 1], b) + if last.bucket == b && last.status.Allowed? then 1 else 0
  }

  /** The requests of a bucket that ended with a limiter error after Redis had counted them. */
  function Errors(hits: seq<Hit>, b: Bucket): nat {
    if hits == [] then 0
    else
      var last := hits[|hits| - 1];
      Errors(hits[..|hits| - 1], b) + if last.bucket == b && last.status.Errored? then 1 else 0
  }

  function LostIn(lost: seq<Bucket>, b: Bucket): nat {
    if lost == [] then 0
    else LostIn(lost[..|lost| - 1], b) + if lost[|lost| - 1] == b then 1 else 0
  }

  predicate Settled(hits: seq<Hit>, b: Bucket) {
    forall i | 0 <= i < |hits| && hits[i].bucket == b :: hits[i].status.Allowed? || hits[i].status.Denied?
  }

  // ------------------------------------------------------------------ one bucket

  lemma RankedPrefix(hits: seq<Hit>, b: Bucket)
    requires hits != [] && Ranked(hits, b)
    ensures Ranked(hits[..|hits| - 1], b)
  {
    var init := hits[..|hits| - 1];
    forall i | 0 <= i < |init| && init[i].bucket == b
      ensures init[i].count == Count(init[..i], b) + 1
    {
      assert init[..i] == hits[..i] && init[i] == hits[i];
    }
  }

  lemma {:induction false} AllowsBounded(cfg: Config, now: Time, hits: seq<Hit>, b: Bucket)
    requires Ranked(hits, b) && forall i | 0 <= i < |hits| :: HitInv(cfg, now, hits[i])
    ensures Allows(hits, b) <= Min(Count(hits, b), Quota(cfg))
    ensures Settled(hits, b) ==> Allows(hits, b) == Min(Count(hits, b), Quota(cfg))
  {
    if hits == [] {
    } else {
      var n := |hits| - 1;
      RankedPrefix(hits, b);
      AllowsBounded(cfg, now, hits[..n], b);
      assert HitInv(cfg, now, hits[n]);
      assert Settled(hits, b) ==> Settled(hits[..n], b);
    }
  }

  lemma {:induction false} CountGrows(hits: seq<Hit>, i: nat, j: nat, b: Bucket)
    requires i < j <= |hits| && hits[i].bucket == b
    ensures Count(hits[..i], b) < Count(hits[..j], b)
    decreases j - i
  {
    assert hits[..j][..j - 1] == hits[..j - 1];
    if i < j - 1 {
      CountGrows(hits, i, j - 1, b);
    }
  }

  ghost predicate DistinctRemaining(cfg: Config, hits: seq<Hit>, b: Bucket) {
    && (forall i | 0 <= i < |hits| && hits[i].bucket == b && hits[i].status.Allowed? ::
          0 <= hits[i].status.remaining < cfg.limit)
    && (forall i, j | 0 <= i < j < |hits| && hits[i].bucket == b && hits[j].bucket == b
                      && hits[i].status.Allowed? && hits[j].status.Allowed? ::
          hits[i].status.remaining > hits[j].status.remaining)
  }

  lemma RemainingFalls(cfg: Config, now: Time, hits: seq<Hit>, b: Bucket)
    requires Ranked(hits, b) && forall i | 0 <= i < |hits| :: HitInv(cfg, now, hits[i])
    ensures DistinctRemaining(cfg, hits, b)
  {
    forall i | 0 <= i < |hits| && hits[i].bucket == b && hits[i].status.Allowed?
      ensures 0 <= hits[i].status.remaining < cfg.limit
    {
      assert HitInv(cfg, now, hits[i]);
    }
    forall i, j | 0 <= i < j < |hits| && hits[i].bucket == b && hits[j].bucket == b
                  && hits[i].status.Allowed? && hits[j].status.Allowed?
      ensures hits[i].status.remaining > hits[j].status.remaining
    {
      assert HitInv(cfg, now, hits[i]) && HitInv(cfg, now, hits[j]);
      CountGrows(hits, i, j, b);
    }
  }

  /** However the INCR, EXPIRE and answer steps of all replicas interleave: if every INCR of the bucket
      landed in the bucket's window, at most the quota of requests is allowed, and exactly the smaller of
      the quota and the number of requests once all are answered without fault; the remaining values run
      strictly downwards from below the limit, so each is handed out at most once; and the bucket's
      counter, if it will expire at all, expires only after the bucket. */
  lemma QuotaPerBucket(cfg: Config, trace: seq<Action>, c: string, b: Bucket)
    requires Sound(cfg) && OnTime(cfg, Run(cfg, INIT, trace).Of(c).hits, b)
    ensures var s := Run(cfg, INIT, trace);
      var hits := s.Of(c).hits;
      && Allows(hits, b) <= Min(Count(hits, b), Quota(cfg))
      && (Settled(hits, b) ==> Allows(hits, b) == Min(Count(hits, b), Quota(cfg)))
      && DistinctRemaining(cfg, hits, b)
      && CounterOk(cfg, s.store, RedisKey(c, b), b, Count(hits, b))
  {
    hide Run, RedisKey, CounterOk;
    Reachable(cfg, trace);
    var s := Run(cfg, INIT, trace);
    var hits := s.Of(c).hits;
    assert ClientInv(cfg, s.now, s.Of(c)) && BucketsInv(cfg, s.store, c, hits);
    assert BucketInv(cfg, s.store, c, hits, b);
    AllowsBounded(cfg, s.now, hits, b);
    RemainingFalls(cfg, s.now, hits, b);
  }

  lemma {:induction false} AllowsPerCreation(cfg: Config, now: Time, hits: seq<Hit>, b: Bucket)
    requires Chained(hits, b) && forall i | 0 <= i < |hits| :: HitInv(cfg, now, hits[i])
    ensures Creations(hits, b) == 0 ==> LastCount(hits, b) == 0 && Allows(hits, b) == 0
    ensures Creations(hits, b) > 0 ==>
      Allows(hits, b) <= Quota(cfg) * (Creations(hits, b) - 1) + Min(LastCount(hits, b), Quota(cfg))
  {
    if hits == [] {
    } else {
      var n := |hits| - 1;
      AllowsPerCreation(cfg, now, hits[..n], b);
      assert HitInv(cfg, now, hits[n]);
      OneMore(Creations(hits[..n], b), Quota(cfg));
    }
  }

  /** The counts of a bucket are its hits' ranks exactly when its counter was created once at most. */
  lemma {:induction false} RankedIffOneCounter(cfg: Config, now: Time, hits: seq<Hit>, b: Bucket)
    requires Chained(hits, b) && forall i | 0 <= i < |hits| :: HitInv(cfg, now, hits[i])
    ensures Ranked(hits, b) <==> Creations(hits, b) <= 1
    ensures Ranked(hits, b) ==> LastCount(hits, b) == Count(hits, b) && Creations(hits, b) == Min(1, Count(hits, b))
    ensures Creations(hits, b) == 0 ==> Count(hits, b) == 0
  {
    if hits == [] {
    } else {
      var n := |hits| - 1;
      var init, last := hits[..n], hits[n];
      RankedIffOneCounter(cfg, now, init, b);
      assert HitInv(cfg, now, last);
      assert init + [last] == hits;
      if Ranked(hits, b) {
        RankedPrefix(hits, b);
      } else if Ranked(init, b) && (last.bucket == b ==> last.count == Count(init, b) + 1) {
        RankedSnoc(init, last, b);
      }
    }
  }

  /** However late INCRs arrive: at most one quota of requests is allowed for each time the bucket's counter
      was created. If it was created only once, the guarantees of QuotaPerBucket hold, and INCRs inside the
      bucket's window see to that. */
  lemma QuotaPerCounter(cfg: Config, trace: seq<Action>, c: string, b: Bucket)
    requires Sound(cfg)
    ensures var hits := Run(cfg, INIT, trace).Of(c).hits;
      && Allows(hits, b) <= Quota(cfg) * Creations(hits, b)
      && (Creations(hits, b) <= 1 ==>
            Allows(hits, b) <= Min(Count(hits, b), Quota(cfg)) && DistinctRemaining(cfg, hits, b))
      && (Creations(hits, b) <= 1 && Settled(hits, b) ==> Allows(hits, b) == Min(Count(hits, b), Quota(cfg)))
      && (OnTime(cfg, hits, b) ==> Creations(hits, b) <= 1)
  {
    hide Run, RedisKey, CounterOk;
    Reachable(cfg, trace);
    var s := Run(cfg, INIT, trace);
    var hits := s.Of(c).hits;
    assert ClientInv(cfg, s.now, s.Of(c)) && BucketsInv(cfg, s.store, c, hits);
    assert BucketInv(cfg, s.store, c, hits, b);
    AllowsPerCreation(cfg, s.now, hits, b);
    RankedIffOneCounter(cfg, s.now, hits, b);
    if Creations(hits, b) > 0 {
      OneMore(Creations(hits, b), Quota(cfg));
    }
    if Creations(hits, b) <= 1 {
      AllowsBounded(cfg, s.now, hits, b);
      RemainingFalls(cfg, s.now, hits, b);
    }
  }

  /** The limiter as built: once the requests of a bucket are all answered without fault, and Redis counted
      them in the bucket's window, exactly the smaller of their number and the given limit was allowed. */
  lemma BuiltLimiterAllows(limit: int, window: int, trace: seq<Action>, c: string, b: Bucket)
    requires window > 0
    requires var hits := Run(Configured(limit, window), INIT, trace).Of(c).hits;
      OnTime(Configured(limit, window), hits, b) && Settled(hits, b)
    ensures var hits := Run(Configured(limit, window), INIT, trace).Of(c).hits;
      Allows(hits, b) == Min(Count(hits, b), Max(limit, 0))
  {
    hide Run;
    QuotaPerBucket(Configured(limit, window), trace, c, b);
  }

  /** The requests of a bucket that are about to send EXPIRE. */
  function Expiring(hits: seq<Hit>, b: Bucket): nat {
    if hits == [] then 0
    else
      var last := hits[|hits| - 1];
      Expiring(hits[..|hits| - 1], b) + if last.bucket == b && last.status.AtExpire? then 1 else 0
  }

  /** The action sends EXPIRE for the bucket's counter. */
  predicate SendsExpire(s: Sys, a: Action, c: string, b: Bucket) {
    a.Expire? && a.client == c && a.i < |s.Of(c).hits|
    && s.Of(c).hits[a.i].bucket == b && s.Of(c).hits[a.i].status.AtExpire?
  }

  function ExpiresSent(cfg: Config, trace: seq<Action>, c: string, b: Bucket): nat
    requires cfg.windowSec >= 1
  {
    if trace == [] then 0
    else
      var init := trace[..|trace| - 1];
      ExpiresSent(cfg, init, c, b) + if SendsExpire(Run(cfg, INIT, init), trace[|trace| - 1], c, b) then 1 else 0
  }

  lemma {:induction false} ExpiringAfter(hits: seq<Hit>, i: nat, status: Status, b: Bucket)
    requires i < |hits| && !status.AtExpire?
    ensures var hits' := hits[i := hits[i].(status := status)];
      && Expiring(hits', b) == Expiring(hits, b) - (if hits[i].bucket == b && hits[i].status.AtExpire? then 1 else 0)
      && Creations(hits', b) == Creations(hits, b)
  {
    var n, hits' := |hits| - 1, hits[i := hits[i].(status := status)];
    if i == n {
      assert hits'[..n] == hits[..n];
    } else {
      ExpiringAfter(hits[..n], i, status, b);
      assert hits'[..n] == hits[..n][i := hits[i].(status := status)];
    }
  }

  lemma NextExpires(cfg: Config, s: Sys, a: Action, c: string, b: Bucket)
    requires cfg.windowSec >= 1
    ensures var hits, hits' := s.Of(c).hits, Next(cfg, s, a).Of(c).hits;
      Expiring(hits', b) + (if SendsExpire(s, a, c, b) then 1 else 0) - Creations(hits', b)
        <= Expiring(hits, b) - Creations(hits, b)
  {
    hide RedisKey, Incremented, Expired, BucketAt, Answer;
    var cl := s.Of(c);
    match a
    case Incr(d, p, fault) =>
      if d == c && p in cl.waiting && fault != Lost {
        var hits' := Next(cfg, s, a).Of(c).hits;
        assert hits'[..|hits'| - 1] == cl.hits;
      }
    case Expire(d, i, fault) =>
      if d == c && i < |cl.hits| && cl.hits[i].status.AtExpire? {
        ExpiringAfter(cl.hits, i, if fault == NoFault then AtReply else Errored, b);
      }
    case Reply(d, i) =>
      if d == c && i < |cl.hits| && cl.hits[i].status.AtReply? {
        var status := Answer(cfg, cl.hits[i], s.now);
        AnswerIsFinal(cfg, cl.hits[i], s.now);
        ExpiringAfter(cl.hits, i, status, b);
      }
    case _ =>
  }

  lemma AnswerIsFinal(cfg: Config, hit: Hit, now: Time)
    ensures Answer(cfg, hit, now).Allowed? || Answer(cfg, hit, now).Denied?
  {
  }

  /** EXPIRE is sent at most once for each time a counter was created, by the request that created it: in
      every run the EXPIREs sent for a bucket and those about to be sent are no more than the creations of
      its counter. */
  lemma {:induction false} ExpiresPerCreation(cfg: Config, trace: seq<Action>, c: string, b: Bucket)
    requires cfg.windowSec >= 1
    ensures var hits := Run(cfg, INIT, trace).Of(c).hits;
      ExpiresSent(cfg, trace, c, b) + Expiring(hits, b) <= Creations(hits, b)
  {
    hide Next;
    if trace == [] {
    } else {
      var init, a := trace[..|trace| - 1], trace[|trace| - 1];
      ExpiresPerCreation(cfg, init, c, b);
      NextExpires(cfg, Run(cfg, INIT, init), a, c, b);
    }
  }

  /** Only the request that created a bucket's counter sends EXPIRE, and it sends it once: when the bucket's
      INCRs landed in its window, one EXPIRE at most is sent for the bucket in the whole run, and a request
      about to send it is the first the bucket counted. So no later request pushes the expiry forward. */
  lemma OnlyFirstHitExpires(cfg: Config, trace: seq<Action>, c: string, b: Bucket)
    requires Sound(cfg) && OnTime(cfg, Run(cfg, INIT, trace).Of(c).hits, b)
    ensures var hits := Run(cfg, INIT, trace).Of(c).hits;
      && ExpiresSent(cfg, trace, c, b) + Expiring(hits, b) <= 1
      && forall i | 0 <= i < |hits| && hits[i].bucket == b && hits[i].status.AtExpire? :: Count(hits[..i], b) == 0
  {
    hide Run, RedisKey, CounterOk, Count, ExpiresSent, Expiring, Creations;
    ExpiresPerCreation(cfg, trace, c, b);
    QuotaPerCounter(cfg, trace, c, b);
    Reachable(cfg, trace);
    var s := Run(cfg, INIT, trace);
    var hits := s.Of(c).hits;
    assert ClientInv(cfg, s.now, s.Of(c)) && BucketsInv(cfg, s.store, c, hits);
    assert BucketInv(cfg, s.store, c, hits, b);
    forall i | 0 <= i < |hits| && hits[i].bucket == b && hits[i].status.AtExpire?
      ensures Count(hits[..i], b) == 0
    {
      assert HitInv(cfg, s.now, hits[i]);
    }
  }

  /** The requests of a bucket that the middleware lets through: what the limiter allows and, failing
      open, what it cannot decide. */
  function Passes(cl: Client, b: Bucket): nat {
    PassedHits(cl.hits, b) + LostIn(cl.lost, b)
  }

  function PassedHits(hits: seq<Hit>, b: Bucket): nat {
    if hits == [] then 0
    else
      var last := hits[|hits| - 1];
      PassedHits(hits[..|hits| - 1], b)
        + if last.bucket == b && (last.status.Allowed? || last.status.Errored?) then 1 else 0
  }

  lemma {:induction false} PassedHitsSplit(hits: seq<Hit>, b: Bucket)
    ensures PassedHits(hits, b) == Allows(hits, b) + Errors(hits, b)
  {
    if hits == [] {
    } else {
      PassedHitsSplit(hits[..|hits| - 1], b);
    }
  }

  /** For one client and bucket the middleware never passes more than the quota plus the number of
      limiter errors. */
  lemma PassesBounded(cfg: Config, trace: seq<Action>, c: string, b: Bucket)
    requires Sound(cfg) && OnTime(cfg, Run(cfg, INIT, trace).Of(c).hits, b)
    ensures var cl := Run(cfg, INIT, trace).Of(c);
      Passes(cl, b) <= Quota(cfg) + Errors(cl.hits, b) + LostIn(cl.lost, b)
  {
    hide Run;
    QuotaPerBucket(cfg, trace, c, b);
    PassedHitsSplit(Run(cfg, INIT, trace).Of(c).hits, b);
  }

  datatype Decisions = Decisions(allow: nat, deny: nat, error: nat, open: nat)

  /** The decisions recorded for the requests Redis counted; `open` are those still unanswered. */
  function Recorded(hits: seq<Hit>): Decisions {
    if hits == [] then Decisions(0, 0, 0, 0)
    else
      var d := Recorded(hits[..|hits| - 1]);
      match hits[|hits| - 1].status
      case Allowed(_, _) => d.(allow := d.allow + 1)
      case Denied(_, _) => d.(deny := d.deny + 1)
      case Errored => d.(error := d.error + 1)
      case _ => d.(open := d.open + 1)
  }

  lemma {:induction false} RecordedTotal(hits: seq<Hit>)
    ensures var d := Recorded(hits); d.allow + d.deny + d.error + d.open == |hits|
  {
    if hits == [] {
    } else {
      RecordedTotal(hits[..|hits| - 1]);
    }
  }

  /** Every request that arrived is recorded exactly once, as allowed, denied or failed, or is still on
      its way. */
  lemma DecisionsCountRequests(cfg: Config, trace: seq<Action>, c: string)
    requires Sound(cfg)
    ensures var cl := Run(cfg, INIT, trace).Of(c);
      var d := Recorded(cl.hits);
      cl.arrived == d.allow + d.deny + (d.error + |cl.lost|) + (d.open + |cl.waiting|)
  {
    hide Run;
    Reachable(cfg, trace);
    var s := Run(cfg, INIT, trace);
    assert ClientInv(cfg, s.now, s.Of(c));
    RecordedTotal(s.Of(c).hits);
  }

  // ------------------------------------------------------------------ any time interval

  /** The allowed requests that Redis counted in the interval. */
  function CountedBetween(hits: seq<Hit>, lo: Time, hi: Time): nat {
    if hits == [] then 0
    else
      var last := hits[|hits| - 1];
      CountedBetween(hits[..|hits| - 1], lo, hi) + if lo <= last.at < hi && last.status.Allowed? then 1 else 0
  }

  /** The requests answered with "allowed" in the interval. */
  function AnsweredBetween(hits: seq<Hit>, lo: Time, hi: Time): nat {
    if hits == [] then 0
    else
      var status := hits[|hits| - 1].status;
      AnsweredBetween(hits[..|hits| - 1], lo, hi) + if status.Allowed? && lo <= status.at < hi then 1 else 0
  }

  /** Every allowed request was answered within `delay` of being counted. */
  predicate Prompt(hits: seq<Hit>, delay: nat) {
    forall i | 0 <= i < |hits| && hits[i].status.Allowed? :: hits[i].status.at <= hits[i].at + delay
  }

  lemma {:induction false} AllowsSplit(hits: seq<Hit>, lo: Time, mid: Time, hi: Time)
    requires lo <= mid <= hi
    ensures CountedBetween(hits, lo, hi) == CountedBetween(hits, lo, mid) + CountedBetween(hits, mid, hi)
  {
    if hits == [] {
    } else {
      AllowsSplit(hits[..|hits| - 1], lo, mid, hi);
    }
  }

  ghost predicate AllOnTime(cfg: Config, hits: seq<Hit>) {
    forall i | 0 <= i < |hits| :: InWindow(cfg, hits[i].bucket, hits[i].at)
  }

  lemma {:induction false} AllowsWithin(cfg: Config, hits: seq<Hit>, b: Bucket, lo: Time, hi: Time)
    requires cfg.windowSec >= 1 && AllOnTime(cfg, hits)
    requires Start(cfg, b) <= lo && hi <= Start(cfg, b) + Width(cfg)
    ensures CountedBetween(hits, lo, hi) <= Allows(hits, b)
  {
    if hits == [] {
    } else {
      var n := |hits| - 1;
      assert forall i | 0 <= i < n :: hits[..n][i] == hits[i];
      AllowsWithin(cfg, hits[..n], b, lo, hi);
      if lo <= hits[n].at < hi {
        WindowsDisjoint(cfg, b, hits[n].bucket, hits[n].at);
      }
    }
  }

  /** Each window contributes at most the quota. */
  lemma {:induction false} AllowsOverWindows(cfg: Config, hits: seq<Hit>, b: Bucket, k: nat, lo: Time, hi: Time)
    requires cfg.windowSec >= 1 && AllOnTime(cfg, hits)
    requires forall b' :: Allows(hits, b') <= Quota(cfg)
    requires Start(cfg, b) <= lo <= hi <= Start(cfg, b + k)
    ensures CountedBetween(hits, lo, hi) <= k * Quota(cfg)
    decreases k
  {
    hide Start, Quota, CountedBetween, Allows, Width;
    var edge := Start(cfg, b + 1);
    StartStep(cfg, b);
    if k == 0 {
      AllowsEmpty(hits, lo, hi);
    } else if hi <= edge {
      AllowsWithin(cfg, hits, b, lo, hi);
      MulMono(1, k, Quota(cfg));
    } else if lo <= edge {
      AllowsSplit(hits, lo, edge, hi);
      AllowsWithin(cfg, hits, b, lo, edge);
      AllowsOverWindows(cfg, hits, b + 1, k - 1, edge, hi);
      OneMore(k, Quota(cfg));
    } else {
      AllowsOverWindows(cfg, hits, b + 1, k - 1, lo, hi);
      OneMore(k, Quota(cfg));
    }
  }

  lemma OneMore(k: nat, q: nat)
    ensures k * q == q + (k - 1) * q == q * k == q + q * (k - 1)
  {
  }

  lemma StartMono(cfg: Config, b: Bucket, b': Bucket)
    requires b <= b'
    ensures Start(cfg, b) <= Start(cfg, b')
  {
    MulMono(b, b', Width(cfg));
  }

  lemma {:induction false} AllowsEmpty(hits: seq<Hit>, lo: Time, hi: Time)
    requires hi <= lo
    ensures CountedBetween(hits, lo, hi) == 0
  {
    if hits == [] {
    } else {
      AllowsEmpty(hits[..|hits| - 1], lo, hi);
    }
  }

  function CeilDiv(n: nat, d: nat): nat
    requires d > 0
  {
    (n + d - 1) / d
  }

  lemma CeilDivBound(n: nat, d: nat)
    requires d > 0
    ensures n <= CeilDiv(n, d) * d < n + d
  {
    var m := n + d - 1;
    assert m == (m / d) * d + m % d;
  }

  /** How many windows of `w` instants `n` consecutive instants can touch. */
  function Touched(n: nat, w: nat): nat
    requires w > 0
  {
    if n == 0 then 0 else (n + w - 2) / w + 1
  }

  lemma TouchedIff(n: nat, w: nat, m: nat)
    requires w > 0 && n > 0
    ensures Touched(n, w) <= m + 1 <==> n <= m * w + 1
    ensures n + w - 1 <= Touched(n, w) * w
  {
    var k := (n + w - 2) / w;
    assert n + w - 2 == w * k + (n + w - 2) % w;
    assert (k + 1) * w == w * k + w;
    if k <= m {
      MulMono(k, m, w);
    } else {
      MulMono(m + 1, k, w);
      assert (m + 1) * w == m * w + w;
    }
  }

  /** The familiar form of the bound, which is one too many when `n` is one more than a multiple of `w`. */
  lemma TouchedAtMostCeil(n: nat, w: nat)
    requires w > 0
    ensures Touched(n, w) <= CeilDiv(n, w) + 1
  {
    CeilDivBound(n, w);
    if n == 0 {
    } else {
      TouchedIff(n, w, CeilDiv(n, w));
    }
  }

  /** Across all replicas, any time interval of length `len` contains the INCRs of at most as many quotas of
      allowed requests of one client as it can touch windows, when all its INCRs landed in theirs; that is
      at most ceil(len / W) + 1. */
  lemma QuotaOverCounted(cfg: Config, trace: seq<Action>, c: string, lo: Time, len: nat)
    requires Sound(cfg) && AllOnTime(cfg, Run(cfg, INIT, trace).Of(c).hits)
    ensures CountedBetween(Run(cfg, INIT, trace).Of(c).hits, lo, lo + len) <= Touched(len, Width(cfg)) * Quota(cfg)
    ensures Touched(len, Width(cfg)) <= CeilDiv(len, Width(cfg)) + 1
  {
    hide Run;
    var hits := Run(cfg, INIT, trace).Of(c).hits;
    TouchedAtMostCeil(len, Width(cfg));
    if len == 0 {
      AllowsEmpty(hits, lo, lo);
    } else {
      forall b
        ensures Allows(hits, b) <= Quota(cfg)
      {
        QuotaPerBucket(cfg, trace, c, b);
      }
      var b, k, w := BucketAt(cfg, lo), Touched(len, Width(cfg)), Width(cfg);
      BucketContains(cfg, lo);
      TouchedIff(len, w, 0);
      assert Start(cfg, b + k) == Start(cfg, b) + k * w by {
        assert (b + k) * w == b * w + k * w;
      }
      AllowsOverWindows(cfg, hits, b, k, lo, lo + len);
    }
  }

  lemma HitsOfEveryRun(cfg: Config, trace: seq<Action>, c: string)
    requires Sound(cfg)
    ensures var s := Run(cfg, INIT, trace); forall i | 0 <= i < |s.Of(c).hits| :: HitInv(cfg, s.now, s.Of(c).hits[i])
  {
    hide Run, HitInv;
    Reachable(cfg, trace);
    assert ClientInv(cfg, Run(cfg, INIT, trace).now, Run(cfg, INIT, trace).Of(c));
  }

  lemma {:induction false} AnswersWereCounted(
      cfg: Config, now: Time, hits: seq<Hit>, lo: Time, from: Time, hi: Time, delay: nat)
    requires forall i | 0 <= i < |hits| :: HitInv(cfg, now, hits[i])
    requires Prompt(hits, delay) && (from == 0 || from + delay <= lo)
    ensures AnsweredBetween(hits, lo, hi) <= CountedBetween(hits, from, hi)
  {
    if hits == [] {
    } else {
      var n := |hits| - 1;
      assert forall i | 0 <= i < n :: hits[..n][i] == hits[i];
      AnswersWereCounted(cfg, now, hits[..n], lo, from, hi, delay);
      assert HitInv(cfg, now, hits[n]);
    }
  }

  /** The allow answers themselves: when each is given within `delay` of its INCR, any interval of length
      `len` contains at most as many quotas of them as `len + delay` instants can touch windows. */
  lemma QuotaOverInterval(cfg: Config, trace: seq<Action>, c: string, lo: Time, len: nat, delay: nat)
    requires Sound(cfg) && AllOnTime(cfg, Run(cfg, INIT, trace).Of(c).hits)
    requires Prompt(Run(cfg, INIT, trace).Of(c).hits, delay)
    ensures AnsweredBetween(Run(cfg, INIT, trace).Of(c).hits, lo, lo + len)
         <= Touched(len + delay, Width(cfg)) * Quota(cfg)
    ensures Touched(len + delay, Width(cfg)) <= CeilDiv(len + delay, Width(cfg)) + 1
  {
    hide Run, CeilDiv, Touched, Width, Quota, AllOnTime, Prompt, CountedBetween, AnsweredBetween, HitInv;
    var s := Run(cfg, INIT, trace);
    var hits := s.Of(c).hits;
    HitsOfEveryRun(cfg, trace, c);
    var from := Max(lo - delay, 0);
    QuotaOverCounted(cfg, trace, c, from, len + delay);
    AnswersWereCounted(cfg, s.now, hits, lo, from, lo + len, delay);
    CountedMono(hits, from, lo + len, from + len + delay);
  }

  lemma {:induction false} CountedMono(hits: seq<Hit>, lo: Time, hi: Time, hi': Time)
    requires hi <= hi'
    ensures CountedBetween(hits, lo, hi) <= CountedBetween(hits, lo, hi')
  {
    if hits == [] {
    } else {
      CountedMono(hits[..|hits| - 1], lo, hi, hi');
    }
  }

  /** In particular one window length, and an instant more, holds the INCRs of at most two quotas, and an
      interval holds at most two quotas of allow answers if its length and the delay exceed the window by an
      instant at most. */
  lemma TwiceTheQuota(cfg: Config, trace: seq<Action>, c: string, lo: Time, len: nat, delay: nat)
    requires Sound(cfg) && AllOnTime(cfg, Run(cfg, INIT, trace).Of(c).hits)
    requires Prompt(Run(cfg, INIT, trace).Of(c).hits, delay) && len + delay <= Width(cfg) + 1
    ensures CountedBetween(Run(cfg, INIT, trace).Of(c).hits, lo, lo + Width(cfg) + 1) <= 2 * Quota(cfg)
    ensures AnsweredBetween(Run(cfg, INIT, trace).Of(c).hits, lo, lo + len) <= 2 * Quota(cfg)
  {
    hide Run, CeilDiv, Touched, CountedBetween, AnsweredBetween;
    QuotaOverCounted(cfg, trace, c, lo, Width(cfg) + 1);
    QuotaOverInterval(cfg, trace, c, lo, len, delay);
    TouchedAtMostTwo(Width(cfg) + 1, Width(cfg));
    TouchedAtMostTwo(len + delay, Width(cfg));
    MulMono(Touched(len + delay, Width(cfg)), 2, Quota(cfg));
    MulMono(Touched(Width(cfg) + 1, Width(cfg)), 2, Quota(cfg));
  }

  lemma TouchedAtMostTwo(n: nat, w: nat)
    requires w > 0 && n <= w + 1
    ensures Touched(n, w) <= 2
  {
    if n == 0 {
    } else {
      TouchedIff(n, w, 1);
    }
  }

  // ------------------------------------------------------------------ Retry-After

  /** The header: the wait rounded up to whole seconds, at least one. */
  function RetrySeconds(retryAfter: nat): nat {
    Max((retryAfter + NANOS_PER_SECOND - 1) / NANOS_PER_SECOND, 1)
  }

  lemma WindowBefore(cfg: Config, b: Bucket, t: Time)
    requires cfg.windowSec >= 1
    ensures t >= Start(cfg, b) + Width(cfg) <==> BucketAt(cfg, t) > b
  {
    var b' := BucketAt(cfg, t);
    BucketContains(cfg, t);
    StartStep(cfg, b);
    StartStep(cfg, b');
    if b' <= b {
      StartMono(cfg, b', b);
    } else {
      StartMono(cfg, b + 1, b');
    }
  }

  /** A denied client that waits exactly the announced seconds, counted from the answer, lands in a
      strictly later bucket; the header lies between one second and the window; and no smaller number of
      whole seconds would do, except that the header is never below one. */
  lemma RetryAfterWorks(cfg: Config, trace: seq<Action>, c: string, i: nat)
    requires Sound(cfg) && i < |Run(cfg, INIT, trace).Of(c).hits| && Run(cfg, INIT, trace).Of(c).hits[i].status.Denied?
    ensures var hit := Run(cfg, INIT, trace).Of(c).hits[i];
      var Denied(at, retryAfter) := hit.status;
      var seconds := RetrySeconds(retryAfter);
      && 1 <= seconds <= cfg.windowSec
      && BucketAt(cfg, at + seconds * NANOS_PER_SECOND) > hit.bucket
      && (seconds > 1 ==> BucketAt(cfg, at + (seconds - 1) * NANOS_PER_SECOND) <= hit.bucket)
  {
    hide Run;
    Reachable(cfg, trace);
    var s := Run(cfg, INIT, trace);
    assert ClientInv(cfg, s.now, s.Of(c));
    var hit := s.Of(c).hits[i];
    assert HitInv(cfg, s.now, hit);
    RetryLands(cfg, hit.bucket, hit.status.at);
  }

  lemma RetryLands(cfg: Config, b: Bucket, at: Time)
    requires cfg.windowSec >= 1 && Start(cfg, b) <= at
    ensures var seconds := RetrySeconds(RetryAfter(cfg, b, at));
      && 1 <= seconds <= cfg.windowSec
      && BucketAt(cfg, at + seconds * NANOS_PER_SECOND) > b
      && (seconds > 1 ==> BucketAt(cfg, at + (seconds - 1) * NANOS_PER_SECOND) <= b)
  {
    var retryAfter := RetryAfter(cfg, b, at);
    var seconds := RetrySeconds(retryAfter);
    assert retryAfter <= cfg.windowSec * NANOS_PER_SECOND;
    WindowBefore(cfg, b, at + seconds * NANOS_PER_SECOND);
    if seconds > 1 {
      WindowBefore(cfg, b, at + (seconds - 1) * NANOS_PER_SECOND);
    }
  }

  // ------------------------------------------------------------------ independence of clients

  predicate Concerns(a: Action, c: string) {
    match a
    case Tick(_) => true
    case Arrive(d, _) => d == c
    case Incr(d, _, _) => d == c
    case Expire(d, _, _) => d == c
    case Reply(d, _) => d == c
  }

  /** The trace without the requests of other clients. */
  function Only(trace: seq<Action>, c: string): seq<Action> {
    if trace == [] then []
    else
      var rest, last := Only(trace[..|trace| - 1], c), trace[|trace| - 1];
      if Concerns(last, c) then rest + [last] else rest
  }

  ghost predicate SameCounters(s: Sys, s': Sys, c: string) {
    forall b :: (RedisKey(c, b) in s.store <==> RedisKey(c, b) in s'.store)
             && (RedisKey(c, b) in s.store ==> s.store[RedisKey(c, b)] == s'.store[RedisKey(c, b)])
  }

  ghost predicate SameFor(s: Sys, s': Sys, c: string) {
    s.now == s'.now && s.Of(c) == s'.Of(c) && SameCounters(s, s', c)
  }

  lemma OwnStepSame(cfg: Config, s: Sys, s': Sys, a: Action, c: string)
    requires cfg.windowSec >= 1 && SameFor(s, s', c) && Concerns(a, c)
    ensures SameFor(Next(cfg, s, a), Next(cfg, s', a), c)
  {
    hide RedisKey;
  }

  lemma OtherStepSame(cfg: Config, s: Sys, a: Action, c: string)
    requires cfg.windowSec >= 1 && !Concerns(a, c)
    ensures SameFor(Next(cfg, s, a), s, c)
  {
    hide RedisKey;
    KeysApart(a.client, c);
  }

  lemma KeysApart(d: string, c: string)
    requires d != c
    ensures forall b, b' :: RedisKey(d, b) != RedisKey(c, b')
  {
    forall b, b'
      ensures RedisKey(d, b) != RedisKey(c, b')
    {
      if RedisKey(d, b) == RedisKey(c, b') {
        RedisKeyInjective(d, b, c, b');
      }
    }
  }

  /** Over every run, what one client sees (its requests, counts, answers and its counters) is what it
      would have seen had no other client sent any request. */
  lemma {:induction false} ClientsAreIndependent(cfg: Config, trace: seq<Action>, c: string)
    requires cfg.windowSec >= 1
    ensures SameFor(Run(cfg, INIT, trace), Run(cfg, INIT, Only(trace, c)), c)
  {
    hide RedisKey, Next;
    if trace == [] {
    } else {
      var init, a := trace[..|trace| - 1], trace[|trace| - 1];
      ClientsAreIndependent(cfg, init, c);
      var s, s' := Run(cfg, INIT, init), Run(cfg, INIT, Only(init, c));
      if Concerns(a, c) {
        OwnStepSame(cfg, s, s', a, c);
        RunSnoc(cfg, INIT, Only(init, c), a);
      } else {
        OtherStepSame(cfg, s, a, c);
      }
    }
  }
}
