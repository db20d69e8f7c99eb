/** The whole cycle of a breaker, over every run: what its counters count, when it trips under any settings,
    where a half-open breaker goes, and the times of the default settings in nanoseconds. */
module BreakerCycle {
  import opened Prelude
  import opened Breaker

  /** The calls of a run that were let in under ticket `g`. */
  function LetIn(cfg: Settings, b: Cb, events: seq<Event>, g: nat): nat
    requires EventsOk(events)
  {
    if events == [] then 0
    else
      var n := |events| - 1;
      LetIn(cfg, b, events[..n], g)
        + if events[n].CallBegins? && Admitted(cfg, Play(cfg, b, events[..n]), events[n].now) == Some(g) then 1 else 0
  }

  /** A ticket of a later generation than the present one was never given out; and the breaker counts as
      requests exactly the calls let in during the present generation. */
  lemma {:induction false} RequestsAreCallsLetIn(cfg: Settings, start: nat, events: seq<Event>)
    requires EventsOk(events)
    ensures var b := Play(cfg, Initial(cfg, start), events);
      && b.counts.requests == LetIn(cfg, Initial(cfg, start), events, b.generation)
      && forall g | g > b.generation :: LetIn(cfg, Initial(cfg, start), events, g) == 0
  {
    hide ShouldCount, ReadyToTrip;
    if events == [] {
    } else {
      var n := |events| - 1;
      RequestsAreCallsLetIn(cfg, start, events[..n]);
      StepCounts(cfg, Play(cfg, Initial(cfg, start), events[..n]), events[n]);
    }
  }

  /** A step keeps the generation and counts a call exactly when it lets one in, or it starts a later
      generation with no call, or with the one it lets in. */
  lemma StepCounts(cfg: Settings, b: Cb, e: Event)
    requires EventOk(e)
    ensures var b' := Step(cfg, b, e);
      var admitted := e.CallBegins? && Admitted(cfg, b, e.now).Some?;
      && (admitted ==> Admitted(cfg, b, e.now) == Some(b'.generation))
      && b'.generation >= b.generation
      && b'.counts.requests ==
           (if b'.generation == b.generation then b.counts.requests else 0) + if admitted then 1 else 0
  {
    hide ShouldCount, ReadyToTrip;
  }

  /** Under any settings a closed breaker opens on the report of a counted failure of its generation exactly
      when as many failures in a row were reported as the threshold says, or enough calls were let in and
      more than the given part of them has failed; and no success opens it. */
  lemma TripsIff(cfg: Settings, start: nat, events: seq<Event>, now: nat, success: bool)
    requires EventsOk(events) && Current(cfg, Play(cfg, Initial(cfg, start), events), now).state == Closed
    ensures var b := Play(cfg, Initial(cfg, start), events);
      var c := Current(cfg, b, now);
      var after := c.outcomes + [success];
      End(cfg, b, c.generation, now, success).state == Open <==>
        && !success
        && (TrailingFailures(after) >= cfg.consecutiveFailures ||
            (0 < cfg.minRequestsForRate <= c.counts.requests &&
             Failures(after) * cfg.rateDenominator > cfg.rateNumerator * c.counts.requests))
  {
    hide Play, Failures, TrailingFailures;
    FreshMeans();
    PlayKeepsInv(cfg, Initial(cfg, start), events);
    var c := Current(cfg, Play(cfg, Initial(cfg, start), events), now);
    OutcomeSnoc(c.outcomes, success);
  }

  /** In every run, the report of a probe decides a half-open breaker: a counted failure opens it for the
      whole timeout; a success closes it with fresh counters when it is the last probe, else it waits on, for
      however long. */
  lemma ProbeDecides(cfg: Settings, start: nat, events: seq<Event>, now: nat)
    requires EventsOk(events) && Play(cfg, Initial(cfg, start), events).state == HalfOpen
    ensures var b := Play(cfg, Initial(cfg, start), events);
      var failed, passed := End(cfg, b, b.generation, now, false), End(cfg, b, b.generation, now, true);
      && failed.state == Open && failed.expiry == Some(now + cfg.timeout)
      && (if |b.outcomes| + 1 == Probes(cfg) then passed.state == Closed && passed.counts == ZERO
          else passed.state == HalfOpen && passed.generation == b.generation)
      && forall t: nat :: Current(cfg, b, t) == b
  {
    hide Play;
    FreshMeans();
    PlayKeepsInv(cfg, Initial(cfg, start), events);
  }

  /** A report from an earlier generation is ignored. */
  lemma StaleReportsIgnored(cfg: Settings, b: Cb, ticket: nat, now: nat, success: bool)
    requires ticket != Current(cfg, b, now).generation
    ensures End(cfg, b, ticket, now, success) == Current(cfg, b, now)
  {
  }

  /** The default times. Once tripped at `now` the breaker refuses every call for thirty seconds; the first
      call after that is let in as the only probe, and a second one refused; if the probe succeeds the
      breaker is closed again, if it fails it refuses for thirty seconds more. */
  lemma DefaultCycle(b: Cb, ticket: nat, now: nat, success: bool, probe: nat, later: nat)
    requires b.state != Open && End(DEFAULTS, b, ticket, now, success).state == Open
    requires probe > now + 30_000_000_000 && later >= probe
    ensures var tripped := End(DEFAULTS, b, ticket, now, success);
      var probing := Begin(DEFAULTS, tripped, probe);
      && (forall t: nat | t <= now + 30_000_000_000 :: Admitted(DEFAULTS, tripped, t).None?)
      && Admitted(DEFAULTS, tripped, probe) == Some(probing.generation)
      && Admitted(DEFAULTS, probing, later).None?
      && End(DEFAULTS, probing, probing.generation, later, true).state == Closed
      && forall t: nat | t <= later + 30_000_000_000 ::
           Admitted(DEFAULTS, End(DEFAULTS, probing, probing.generation, later, false), t).None?
  {
  }

  /** The default interval. A breaker that closes at `now` counts together what happens within sixty seconds,
      and forgets it afterwards. */
  lemma DefaultInterval(b: Cb, now: nat, later: nat)
    ensures var closed := NewGeneration(DEFAULTS, b, Closed, now);
      if later <= now + 60_000_000_000 then Current(DEFAULTS, closed, later) == closed
      else Current(DEFAULTS, closed, later).counts == ZERO
           && Current(DEFAULTS, closed, later).generation == closed.generation + 1
  {
  }
}
