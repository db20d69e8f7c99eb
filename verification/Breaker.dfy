/** The circuit breaker of one database pool.

    The repository's own part is the classification of errors, the trip rule and the settings. They are
    placed over the breaker machine they configure: closed, open and half-open, with counters that start
    afresh at every change of state and, while closed, every `interval`. Calls overlap: each is let in or
    refused when it begins and reported when it ends, and reports from an earlier generation are ignored. */
module Breaker {
  import opened Prelude

  // ------------------------------------------------------------------ errors

  datatype Err =
    | NotFound            // repository.ErrNotFound
    | NoRows              // pgx.ErrNoRows
    | Canceled            // context.Canceled
    | DeadlineExceeded    // context.DeadlineExceeded
    | Pg(code: string)    // *pgconn.PgError
    | CircuitOpen         // repository.ErrCircuitOpen
    | Plain               // any other error
    | Wrap(inner: Err)    // fmt.Errorf("…: %w", inner)
    | Join(left: Err, right: Err)

  /** `errors.Is`. */
  predicate Is(e: Err, target: Err) {
    e == target ||
    match e
    case Wrap(inner) => Is(inner, target)
    case Join(left, right) => Is(left, target) || Is(right, target)
    case _ => false
  }

  /** `errors.As` for a PgError: the SQLSTATE of the first one met, left to right. */
  function AsPg(e: Err): Option<string> {
    match e
    case Pg(code) => Some(code)
    case Wrap(inner) => AsPg(inner)
    case Join(left, right) => if AsPg(left).Some? then AsPg(left) else AsPg(right)
    case _ => None
  }

  /** Postgres always sends five-character codes; the classification slices off the first two. */
  predicate WellFormed(e: Err) {
    match e
    case Pg(code) => |code| == 5
    case Wrap(inner) => WellFormed(inner)
    case Join(left, right) => WellFormed(left) && WellFormed(right)
    case _ => true
  }

  lemma {:induction false} AsPgWellFormed(e: Err)
    requires WellFormed(e)
    ensures AsPg(e).Some? ==> |AsPg(e).value| == 5
  {
    match e
    case Wrap(inner) => AsPgWellFormed(inner);
    case Join(left, right) => AsPgWellFormed(left); AsPgWellFormed(right);
    case _ =>
  }

  function ShouldCount(err: Option<Err>): bool
    requires err.Some? ==> WellFormed(err.value)
  {
    match err
    case None => false
    case Some(e) =>
      if Is(e, NotFound) || Is(e, NoRows) || Is(e, Canceled) then false
      else if Is(e, DeadlineExceeded) then true
      else
        match AsPg(e)
        case None => true
        case Some(code) =>
          AsPgWellFormed(e);
          code[..2] in ["53", "57", "58", "08", "XX"]
  }

  /** The errors at the leaves of an error tree, left to right. */
  function Leaves(e: Err): seq<Err> {
    match e
    case Wrap(inner) => Leaves(inner)
    case Join(left, right) => Leaves(left) + Leaves(right)
    case _ => [e]
  }

  predicate Leaf(e: Err) {
    !e.Wrap? && !e.Join?
  }

  lemma {:induction false} IsLeaf(e: Err, target: Err)
    requires Leaf(target)
    ensures Is(e, target) <==> target in Leaves(e)
  {
    match e
    case Wrap(inner) => IsLeaf(inner, target);
    case Join(left, right) => IsLeaf(left, target); IsLeaf(right, target);
    case _ =>
  }

  function FirstPg(leaves: seq<Err>): Option<string> {
    if leaves == [] then None
    else if leaves[0].Pg? then Some(leaves[0].code)
    else FirstPg(leaves[1..])
  }

  lemma {:induction false} FirstPgConcat(a: seq<Err>, b: seq<Err>)
    ensures FirstPg(a + b) == if FirstPg(a).Some? then FirstPg(a) else FirstPg(b)
  {
    if a == [] {
      assert a + b == b;
    } else {
      FirstPgConcat(a[1..], b);
      assert (a + b)[1..] == a[1..] + b;
    }
  }

  lemma {:induction false} AsPgIsFirst(e: Err)
    ensures AsPg(e) == FirstPg(Leaves(e))
  {
    match e
    case Wrap(inner) => AsPgIsFirst(inner);
    case Join(left, right) =>
      AsPgIsFirst(left);
      AsPgIsFirst(right);
      FirstPgConcat(Leaves(left), Leaves(right));
    case _ =>
  }

  predicate Signal(e: Err) {
    e == NotFound || e == NoRows || e == Canceled
  }

  predicate ServerFault(code: string) {
    |code| == 5 && code[..2] in ["53", "57", "58", "08", "XX"]
  }

  /** Whether an error of any shape counts against the pool depends on its leaves alone: not if one of them
      is a control-flow signal; else if one is a timeout it does; else the first Postgres error decides by
      its class; and an error without any of these counts. */
  lemma ClassOfTree(e: Err)
    requires WellFormed(e)
    ensures ShouldCount(Some(e)) <==>
      && (forall x | x in Leaves(e) :: !Signal(x))
      && (DeadlineExceeded in Leaves(e) || FirstPg(Leaves(e)).None? || ServerFault(FirstPg(Leaves(e)).value))
  {
    IsLeaf(e, NotFound);
    IsLeaf(e, NoRows);
    IsLeaf(e, Canceled);
    IsLeaf(e, DeadlineExceeded);
    AsPgIsFirst(e);
    AsPgWellFormed(e);
  }

  function WrapTimes(e: Err, n: nat): Err {
    if n == 0 then e else Wrap(WrapTimes(e, n - 1))
  }

  lemma {:induction false} WrapTimesLeaves(e: Err, n: nat)
    ensures Leaves(WrapTimes(e, n)) == Leaves(e) && (WellFormed(e) ==> WellFormed(WrapTimes(e, n)))
  {
    if n == 0 {
    } else {
      WrapTimesLeaves(e, n - 1);
    }
  }

  /** Adding context to an error, however often, never changes its class. */
  lemma {:induction false} WrappingKeepsClass(e: Err, n: nat)
    requires WellFormed(e)
    ensures WellFormed(WrapTimes(e, n)) && ShouldCount(Some(WrapTimes(e, n))) == ShouldCount(Some(e))
  {
    WrapTimesLeaves(e, n);
    ClassOfTree(e);
    ClassOfTree(WrapTimes(e, n));
  }

  /** Of two joined errors: a signal in either silences both, even beside a timeout; without one, a timeout
      in either makes them count, and so does the union of two errors that count. */
  lemma JoinedClass(a: Err, b: Err)
    requires WellFormed(a) && WellFormed(b)
    ensures Silent(a) || Silent(b) ==> !ShouldCount(Some(Join(a, b)))
    ensures !Silent(a) && !Silent(b) && (Is(a, DeadlineExceeded) || Is(b, DeadlineExceeded)) ==>
      ShouldCount(Some(Join(a, b)))
    ensures ShouldCount(Some(a)) && ShouldCount(Some(b)) ==> ShouldCount(Some(Join(a, b)))
  {
    ClassOfTree(a);
    ClassOfTree(b);
    ClassOfTree(Join(a, b));
    IsLeaf(a, DeadlineExceeded);
    IsLeaf(b, DeadlineExceeded);
    FirstPgConcat(Leaves(a), Leaves(b));
    hide ShouldCount, Is, FirstPg, ServerFault;
  }

  /** A control-flow signal occurs somewhere in the error. */
  predicate Silent(e: Err) {
    exists x | x in Leaves(e) :: Signal(x)
  }

  // ------------------------------------------------------------------ the trip rule

  datatype Settings = Settings(
    maxRequests: nat, interval: nat, timeout: nat,
    consecutiveFailures: nat, rateNumerator: nat, rateDenominator: nat, minRequestsForRate: nat)

  /** Five in a row, or more than half of at least twenty; a minute's interval; half-open after thirty
      seconds with one probe. Times are in nanoseconds. */
  const DEFAULTS: Settings := Settings(1, 60 * NANOS_PER_SECOND, 30 * NANOS_PER_SECOND, 5, 1, 2, 20)

  datatype Counts = Counts(requests: nat, totalFailures: nat, consecutiveSuccesses: nat, consecutiveFailures: nat)

  const ZERO: Counts := Counts(0, 0, 0, 0)

  /** The rate test in exact arithmetic; FloatTestIsExact below shows it is what the floats compute. */
  predicate ReadyToTrip(cfg: Settings, c: Counts) {
    || c.consecutiveFailures >= cfg.consecutiveFailures
    || (cfg.minRequestsForRate > 0 && c.requests >= cfg.minRequestsForRate &&
        c.totalFailures * cfg.rateDenominator > cfg.rateNumerator * c.requests)
  }

  /** A binary floating-point number of the size of a quotient of counters: an integer of at most 53 bits,
      scaled down by a power of two. */
  ghost predicate IsDouble(x: real) {
    exists m: int, k: nat :: Scaled(x, m, k)
  }

  ghost predicate Scaled(x: real, m: int, k: nat) {
    -0x20_0000_0000_0000 < m < 0x20_0000_0000_0000 && k <= 1074 && x * Pow2(k) == m as real
  }

  function Pow2(k: nat): real
    ensures Pow2(k) >= 1.0
  {
    if k == 0 then 1.0 else 2.0 * Pow2(k - 1)
  }

  /** Round to nearest: no double is nearer to the exact value. */
  ghost predicate Nearest(x: real, r: real) {
    IsDouble(r) && forall d: real | IsDouble(d) :: Abs(r - x) <= Abs(d - x)
  }

  function Abs(x: real): real {
    if x < 0.0 then -x else x
  }

  lemma Doubles()
    ensures IsDouble(0.5) && IsDouble(0.5 + 1.0 / 8589934592.0)
  {
    assert Scaled(0.5, 1, 1);
    Pow2At33();
    assert Scaled(0.5 + 1.0 / 8589934592.0, 4294967297, 33);
  }

  lemma Pow2At33()
    ensures Pow2(33) == 8589934592.0
  {
    assert Pow2(3) == 8.0;
    assert Pow2(6) == 64.0;
    assert Pow2(9) == 512.0;
    assert Pow2(12) == 4096.0;
    assert Pow2(15) == 32768.0;
    assert Pow2(18) == 262144.0;
    assert Pow2(21) == 2097152.0;
    assert Pow2(24) == 16777216.0;
    assert Pow2(27) == 134217728.0;
    assert Pow2(30) == 1073741824.0;
  }

  /** For all 32-bit counters, the rounded quotient exceeds one half exactly when twice the failures
      exceed the requests. */
  lemma FloatTestIsExact(failures: nat, requests: nat, rate: real)
    requires 0 < requests < 0x1_0000_0000 && failures < 0x1_0000_0000
    requires Nearest(failures as real / requests as real, rate)
    ensures rate > 0.5 <==> 2 * failures > requests
  {
    var x := failures as real / requests as real;
    Doubles();
    QuotientAgainstHalf(failures, requests);
    assert Abs(rate - x) <= Abs(0.5 - x);
    assert Abs(rate - x) <= Abs(0.5 + 1.0 / 8589934592.0 - x);
  }

  lemma QuotientAgainstHalf(failures: nat, requests: nat)
    requires 0 < requests < 0x1_0000_0000
    ensures 2 * failures <= requests ==> failures as real / requests as real <= 0.5
    ensures 2 * failures > requests ==> failures as real / requests as real >= 0.5 + 1.0 / 8589934592.0
  {
    var f, n := failures as real, requests as real;
    var x := f / n;
    assert x * n == f;
    if 2 * failures <= requests {
      assert 2.0 * f <= n;
      MulCancel(x, 0.5, n);
    } else {
      assert 2.0 * f >= n + 1.0;
      assert (0.5 + 1.0 / 8589934592.0) * n <= 0.5 * n + 0.5;
      MulCancel(0.5 + 1.0 / 8589934592.0, x, n);
    }
  }

  lemma MulCancel(a: real, b: real, n: real)
    requires n > 0.0 && a * n <= b * n
    ensures a <= b
  {
    assert a > b ==> (a - b) * n > 0.0;
  }

  // ------------------------------------------------------------------ the machine

  datatype State = Closed | HalfOpen | Open

  /** `outcomes` records how the calls reported in this generation ended (true: no counted failure). */
  datatype Cb = Cb(state: State, counts: Counts, generation: nat, expiry: Option<nat>, outcomes: seq<bool>)

  function NewGeneration(cfg: Settings, b: Cb, state: State, now: nat): Cb {
    var expiry :=
      match state
      case Closed => if cfg.interval == 0 then None else Some(now + cfg.interval)
      case Open => Some(now + cfg.timeout)
      case HalfOpen => None;
    Cb(state, ZERO, b.generation + 1, expiry, [])
  }

  function Initial(cfg: Settings, now: nat): Cb {
    NewGeneration(cfg, Cb(Closed, ZERO, 0, None, []), Closed, now)
  }

  predicate Past(b: Cb, now: nat) {
    b.expiry.Some? && b.expiry.value < now
  }

  /** The state as seen at `now`. */
  function Current(cfg: Settings, b: Cb, now: nat): Cb {
    match b.state
    case Closed => if Past(b, now) then NewGeneration(cfg, b, Closed, now) else b
    case Open => if Past(b, now) then NewGeneration(cfg, b, HalfOpen, now) else b
    case HalfOpen => b
  }

  /** The calls a half-open breaker lets through; a setting of zero means one. */
  function Probes(cfg: Settings): nat {
    Max(cfg.maxRequests, 1)
  }

  predicate Admits(cfg: Settings, b: Cb) {
    b.state == Closed || (b.state == HalfOpen && b.counts.requests < Probes(cfg))
  }

  /** A call begins: refused, or counted and let through with the generation as its ticket. */
  function Begin(cfg: Settings, b: Cb, now: nat): Cb {
    var c := Current(cfg, b, now);
    if Admits(cfg, c) then c.(counts := c.counts.(requests := c.counts.requests + 1)) else c
  }

  function Admitted(cfg: Settings, b: Cb, now: nat): Option<nat> {
    var c := Current(cfg, b, now);
    if Admits(cfg, c) then Some(c.generation) else None
  }

  function Succeeded(c: Counts): Counts {
    c.(consecutiveSuccesses := c.consecutiveSuccesses + 1, consecutiveFailures := 0)
  }

  function FailedOnce(c: Counts): Counts {
    c.(totalFailures := c.totalFailures + 1,
       consecutiveFailures := c.consecutiveFailures + 1,
       consecutiveSuccesses := 0)
  }

  /** A call that was let in under `ticket` ends. */
  function End(cfg: Settings, b: Cb, ticket: nat, now: nat, success: bool): Cb {
    var c := Current(cfg, b, now);
    if c.generation != ticket then c
    else if success then
      match c.state
      case Closed => c.(counts := Succeeded(c.counts), outcomes := c.outcomes + [true])
      case HalfOpen =>
        var counts := Succeeded(c.counts);
        if counts.consecutiveSuccesses >= Probes(cfg) then NewGeneration(cfg, c, Closed, now)
        else c.(counts := counts, outcomes := c.outcomes + [true])
      case Open => c
    else
      match c.state
      case Closed =>
        var counts := FailedOnce(c.counts);
        if ReadyToTrip(cfg, counts) then NewGeneration(cfg, c, Open, now)
        else c.(counts := counts, outcomes := c.outcomes + [false])
      case HalfOpen => NewGeneration(cfg, c, Open, now)
      case Open => c
  }

  datatype Event =
    | CallBegins(now: nat)
    | CallEnds(ticket: nat, now: nat, err: Option<Err>)
    | Observed(now: nat)   // somebody asks for the state

  predicate EventOk(e: Event) {
    e.CallEnds? && e.err.Some? ==> WellFormed(e.err.value)
  }

  predicate EventsOk(events: seq<Event>) {
    forall i | 0 <= i < |events| :: EventOk(events[i])
  }

  predicate Counted(e: Event)
    requires EventOk(e)
  {
    e.CallEnds? && ShouldCount(e.err)
  }

  function Step(cfg: Settings, b: Cb, e: Event): Cb
    requires EventOk(e)
  {
    match e
    case CallBegins(now) => Begin(cfg, b, now)
    case CallEnds(ticket, now, err) => End(cfg, b, ticket, now, !ShouldCount(err))
    case Observed(now) => Current(cfg, b, now)
  }

  function Play(cfg: Settings, b: Cb, events: seq<Event>): Cb
    requires forall i | 0 <= i < |events| :: EventOk(events[i])
  {
    if events == [] then b
    else Step(cfg, Play(cfg, b, events[..|events| - 1]), events[|events| - 1])
  }

  // ------------------------------------------------------------------ what every run keeps

  function TrailingFailures(outcomes: seq<bool>): nat {
    if outcomes == [] || outcomes[|outcomes| - 1] then 0 else 1 + TrailingFailures(outcomes[..|outcomes| - 1])
  }

  function Failures(outcomes: seq<bool>): nat {
    if outcomes == [] then 0
    else Failures(outcomes[..|outcomes| - 1]) + if outcomes[|outcomes| - 1] then 0 else 1
  }

  ghost predicate CountsMean(c: Counts, outcomes: seq<bool>) {
    c.totalFailures == Failures(outcomes) && c.consecutiveFailures == TrailingFailures(outcomes)
  }

  ghost predicate Inv(cfg: Settings, b: Cb) {
    && CountsMean(b.counts, b.outcomes)
    && (b.state == Closed ==> b.counts == ZERO || b.counts.consecutiveFailures < cfg.consecutiveFailures
                              || b.counts.consecutiveFailures == 0)
    && (b.state == Open ==> b.expiry.Some? && b.counts == ZERO)
    && (b.state == HalfOpen ==> b.counts.consecutiveSuccesses == |b.outcomes| < Probes(cfg))
  }

  lemma OutcomeSnoc(outcomes: seq<bool>, ok: bool)
    ensures Failures(outcomes + [ok]) == Failures(outcomes) + if ok then 0 else 1
    ensures TrailingFailures(outcomes + [ok]) == if ok then 0 else TrailingFailures(outcomes) + 1
  {
    assert (outcomes + [ok])[..|outcomes|] == outcomes;
  }

  lemma StepKeepsInv(cfg: Settings, b: Cb, e: Event)
    requires EventOk(e) && Inv(cfg, b)
    ensures Inv(cfg, Step(cfg, b, e))
  {
    hide ShouldCount, Failures, TrailingFailures;
    FreshMeans();
    if e.CallEnds? {
      var c := Current(cfg, b, e.now);
      OutcomeSnoc(c.outcomes, !ShouldCount(e.err));
    }
  }

  lemma FreshMeans()
    ensures CountsMean(ZERO, [])
  {
  }

  lemma {:induction false} PlayKeepsInv(cfg: Settings, b: Cb, events: seq<Event>)
    requires Inv(cfg, b) && forall i | 0 <= i < |events| :: EventOk(events[i])
    ensures Inv(cfg, Play(cfg, b, events))
  {
    hide Inv, Step;
    if events == [] {
    } else {
      var n := |events| - 1;
      PlayKeepsInv(cfg, b, events[..n]);
      StepKeepsInv(cfg, Play(cfg, b, events[..n]), events[n]);
    }
  }

  /** In every run, overlapping calls included, a closed breaker has seen fewer counted failures in a row
      than the threshold, and its counters say what the calls reported in this generation did. */
  lemma ClosedIsBelowThreshold(cfg: Settings, start: nat, events: seq<Event>)
    requires cfg.consecutiveFailures >= 1 && forall i | 0 <= i < |events| :: EventOk(events[i])
    ensures var b := Play(cfg, Initial(cfg, start), events);
      && b.counts.totalFailures == Failures(b.outcomes)
      && b.counts.consecutiveFailures == TrailingFailures(b.outcomes)
      && (b.state == Closed ==> TrailingFailures(b.outcomes) < cfg.consecutiveFailures)
  {
    hide Play;
    FreshMeans();
    PlayKeepsInv(cfg, Initial(cfg, start), events);
  }

  /** With the default settings a closed breaker opens on the report of a counted failure exactly when it
      is the fifth in a row, or at least twenty calls were let in during this generation and more than
      half of them have failed. */
  lemma OpensIff(start: nat, events: seq<Event>, ticket: nat, now: nat)
    requires forall i | 0 <= i < |events| :: EventOk(events[i])
    requires var c := Current(DEFAULTS, Play(DEFAULTS, Initial(DEFAULTS, start), events), now);
      c.state == Closed && c.generation == ticket
    ensures var c := Current(DEFAULTS, Play(DEFAULTS, Initial(DEFAULTS, start), events), now);
      var after := c.outcomes + [false];
      End(DEFAULTS, Play(DEFAULTS, Initial(DEFAULTS, start), events), ticket, now, false).state == Open <==>
        TrailingFailures(after) >= 5 || (c.counts.requests >= 20 && 2 * Failures(after) > c.counts.requests)
  {
    hide Play, Failures, TrailingFailures;
    FreshMeans();
    PlayKeepsInv(DEFAULTS, Initial(DEFAULTS, start), events);
    var b := Play(DEFAULTS, Initial(DEFAULTS, start), events);
    var c := Current(DEFAULTS, b, now);
    OutcomeSnoc(c.outcomes, false);
  }

  function Time(e: Event): nat {
    e.now
  }

  /** An open breaker lets no call through before its timeout: as long as the clock has not passed its
      expiry nothing changes, whatever is reported, and every call is refused. */
  lemma {:induction false} OpenRefuses(cfg: Settings, b: Cb, events: seq<Event>, now: nat)
    requires b.state == Open && b.expiry.Some? && now <= b.expiry.value
    requires forall i | 0 <= i < |events| :: EventOk(events[i]) && Time(events[i]) <= b.expiry.value
    ensures Play(cfg, b, events) == b && Admitted(cfg, b, now).None?
  {
    hide ShouldCount;
    if events == [] {
    } else {
      OpenRefuses(cfg, b, events[..|events| - 1], now);
    }
  }

  /** A breaker that trips at `now` stays open for the whole timeout. */
  lemma TripsForTimeout(cfg: Settings, b: Cb, ticket: nat, now: nat, err: Option<Err>, events: seq<Event>, later: nat)
    requires err.Some? ==> WellFormed(err.value)
    requires b.state != Open && End(cfg, b, ticket, now, !ShouldCount(err)).state == Open
    requires forall i | 0 <= i < |events| :: EventOk(events[i]) && Time(events[i]) <= now + cfg.timeout
    requires later <= now + cfg.timeout
    ensures var tripped := End(cfg, b, ticket, now, !ShouldCount(err));
      Play(cfg, tripped, events).state == Open && Admitted(cfg, Play(cfg, tripped, events), later).None?
  {
    hide ShouldCount, Play;
    OpenRefuses(cfg, End(cfg, b, ticket, now, !ShouldCount(err)), events, later);
  }

  /** Closed, and without a counted failure in this generation. */
  predicate Calm(b: Cb) {
    b.state == Closed && b.counts.totalFailures == 0 && b.counts.consecutiveFailures == 0
  }

  lemma UncountedKeepsCalm(cfg: Settings, b: Cb, e: Event)
    requires EventOk(e) && Calm(b) && !Counted(e)
    ensures Calm(Step(cfg, b, e))
  {
    hide ShouldCount;
  }

  /** A run in which no counted failure is reported never leaves closed, nor counts one. */
  lemma {:induction false} UncountedNeverTrip(cfg: Settings, b: Cb, events: seq<Event>)
    requires Calm(b) && forall i | 0 <= i < |events| :: EventOk(events[i]) && !Counted(events[i])
    ensures Calm(Play(cfg, b, events))
  {
    hide ShouldCount, Step, Calm;
    if events == [] {
    } else {
      var n := |events| - 1;
      UncountedNeverTrip(cfg, b, events[..n]);
      UncountedKeepsCalm(cfg, Play(cfg, b, events[..n]), events[n]);
    }
  }

  lemma InitialIsCalm(cfg: Settings, now: nat)
    ensures Calm(Initial(cfg, now))
  {
  }
}
