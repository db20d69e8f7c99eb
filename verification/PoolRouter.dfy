/** The router over the primary and replica pools, each behind its own circuit breaker, in the form of the
    program: objects whose calls drive the breaker, and a row adapter that consumes and closes a cursor. */
module PoolRouter {
  import opened Prelude
  import opened Breaker

  /** What happens to one call: when it begins and ends, what other calls do to the same breaker in
      between, and how the pool answers. */
  datatype Env = Env(begins: nat, others: seq<Event>, ends: nat, outcome: Option<Err>)

  predicate EnvOk(env: Env) {
    && (env.outcome.Some? ==> WellFormed(env.outcome.value))
    && forall i | 0 <= i < |env.others| :: EventOk(env.others[i])
  }

  lemma PlaySnoc(cfg: Settings, b: Cb, events: seq<Event>, e: Event)
    requires EventsOk(events) && EventOk(e)
    ensures EventsOk(events + [e]) && Play(cfg, b, events + [e]) == Step(cfg, Play(cfg, b, events), e)
  {
    assert (events + [e])[..|events|] == events;
  }

  lemma {:induction false} PlayConcat(cfg: Settings, b: Cb, first: seq<Event>, second: seq<Event>)
    requires EventsOk(first) && EventsOk(second)
    ensures EventsOk(first + second) && Play(cfg, b, first + second) == Play(cfg, Play(cfg, b, first), second)
    decreases |second|
  {
    hide Step;
    if second == [] {
      assert first + second == first;
    } else {
      var n := |second| - 1;
      PlayConcat(cfg, b, first, second[..n]);
      PlaySnoc(cfg, b, first + second[..n], second[n]);
      assert first + second == first + second[..n] + [second[n]];
    }
  }

  /** Whether a call that begins at `now` on this breaker is turned away. */
  predicate Refuses(cfg: Settings, b: Cb, now: nat) {
    Admitted(cfg, b, now).None?
  }

  /** The breaker after one call. */
  function Played(cfg: Settings, b: Cb, env: Env): Cb
    requires EnvOk(env)
  {
    var begun, ticket := Begin(cfg, b, env.begins), Admitted(cfg, b, env.begins);
    if ticket.None? then begun
    else End(cfg, Play(cfg, begun, env.others), ticket.value, env.ends, !ShouldCount(env.outcome))
  }

  class BreakerDB {
    const cfg: Settings
    const start: nat
    var cb: Cb
    var poolCalls: nat
    ghost var events: seq<Event>

    ghost predicate Valid()
      reads this
    {
      EventsOk(events) && cb == Play(cfg, Initial(cfg, start), events)
    }

    constructor (cfg: Settings, now: nat)
      ensures Valid() && this.cfg == cfg && cb == Initial(cfg, now) && poolCalls == 0
    {
      this.cfg, start := cfg, now;
      cb, poolCalls, events := Initial(cfg, now), 0, [];
    }

    ghost method Note(e: Event)
      requires EventOk(e) && EventsOk(events) && cb == Step(cfg, Play(cfg, Initial(cfg, start), events), e)
      modifies this`events
      ensures Valid() && events == old(events) + [e]
    {
      PlaySnoc(cfg, Initial(cfg, start), events, e);
      events := events + [e];
    }

    /** `cb.State()`: an open breaker whose timeout has passed turns half-open when asked. */
    method Observe(now: nat) returns (state: State)
      requires Valid()
      modifies this`cb, this`events
      ensures Valid() && old(events) <= events
      ensures cb == Current(cfg, old(cb), now) && state == cb.state
    {
      hide Play;
      cb := Current(cfg, cb, now);
      state := cb.state;
      Note(Observed(now));
    }

    /** The breaker's Execute around one call of the pool, which is all of `Exec` and of `Query`. A refused
        call does not reach the pool and reads as ErrCircuitOpen; any other passes the pool's own answer
        through, and the breaker hears of it once. */
    method Exec(env: Env) returns (err: Option<Err>)
      requires Valid() && EnvOk(env)
      modifies this
      ensures Valid() && old(events) <= events
      ensures Refuses(cfg, old(cb), env.begins) ==>
        err == Some(CircuitOpen) && poolCalls == old(poolCalls) && events == old(events) + [CallBegins(env.begins)]
      ensures !Refuses(cfg, old(cb), env.begins) ==>
        && err == env.outcome && poolCalls == old(poolCalls) + 1
        && events == old(events) + [CallBegins(env.begins)] + env.others
                     + [CallEnds(Admitted(cfg, old(cb), env.begins).value, env.ends, env.outcome)]
      ensures old(cb).state == Open && old(cb).expiry.Some? && env.begins <= old(cb).expiry.value ==>
        err == Some(CircuitOpen) && poolCalls == old(poolCalls) && cb == old(cb)
      ensures cb == Played(cfg, old(cb), env)
    {
      hide Play, ShouldCount;
      var ticket := Admitted(cfg, cb, env.begins);
      cb := Begin(cfg, cb, env.begins);
      Note(CallBegins(env.begins));
      if ticket.None? {
        return Some(CircuitOpen);
      }
      poolCalls := poolCalls + 1;
      PlayConcat(cfg, Initial(cfg, start), events, env.others);
      cb := Play(cfg, cb, env.others);
      events := events + env.others;
      err := env.outcome;
      cb := End(cfg, cb, ticket.value, env.ends, !ShouldCount(env.outcome));
      Note(CallEnds(ticket.value, env.ends, env.outcome));
    }

    /** `QueryRow`: run Query under the breaker and defer its error, or the breaker's, to Scan. A refused
        call leaves the pool alone; what goes wrong while the rows are read is reported to nobody. */
    method QueryRow(env: Env, rows: Rows) returns (row: Row)
      requires Valid() && EnvOk(env)
      modifies this
      ensures Valid() && old(events) <= events
      ensures row == if Refuses(cfg, old(cb), env.begins) then ErrRow(CircuitOpen)
                     else if env.outcome.Some? then ErrRow(env.outcome.value) else RowsToRow(rows)
      ensures poolCalls == old(poolCalls) + if Refuses(cfg, old(cb), env.begins) then 0 else 1
      ensures cb == Played(cfg, old(cb), env)
      ensures !Refuses(cfg, old(cb), env.begins) ==>
        events == old(events) + [CallBegins(env.begins)] + env.others
                  + [CallEnds(Admitted(cfg, old(cb), env.begins).value, env.ends, env.outcome)]
    {
      hide Play, ShouldCount;
      var err := Exec(env);
      row := if err.Some? then ErrRow(err.value) else RowsToRow(rows);
    }
  }

  /** What a cursor will do: the records it delivers, the error it ends with if any, and the error of
      decoding its first record if any. */
  datatype Cursor = Cursor(items: seq<string>, failure: Option<Err>, decodeError: Option<Err>) {
    /** What reading the first record comes to. */
    function FirstError(): Option<Err> {
      if items != [] then decodeError
      else if failure.Some? then failure
      else Some(NoRows)
    }
  }

  class Rows {
    const cursor: Cursor
    var read: nat
    var ended: bool
    var closed: bool

    constructor (cursor: Cursor)
      ensures this.cursor == cursor && read == 0 && !ended && !closed
    {
      this.cursor := cursor;
      read, ended, closed := 0, false, false;
    }

    method Next() returns (more: bool)
      modifies this`read, this`ended
      ensures more <==> old(read) < |cursor.items| && !old(ended)
      ensures read == if more then old(read) + 1 else old(read)
      ensures ended == !more
    {
      more := read < |cursor.items| && !ended;
      if more {
        read := read + 1;
      } else {
        ended := true;
      }
    }

    /** The error met so far. */
    function Err(): Option<Err>
      reads this
    {
      if ended then cursor.failure else None
    }

    method Close()
      modifies this`closed
      ensures closed
    {
      closed := true;
    }
  }

  datatype Row = ErrRow(err: Err) | RowsToRow(rows: Rows)

  /** `Scan` of either kind of row: the stored error, or the first record. The cursor is closed on every
      path; an exhausted cursor without an error reads as ErrNoRows. */
  method Scan(row: Row) returns (value: Option<string>, err: Option<Err>)
    requires row.RowsToRow? ==> row.rows.read == 0 && !row.rows.ended
    modifies if row.RowsToRow? then {row.rows} else {}
    ensures row.ErrRow? ==> value == None && err == Some(row.err)
    ensures row.RowsToRow? ==> row.rows.closed
    ensures row.RowsToRow? ==>
      var Cursor(items, failure, decodeError) := row.rows.cursor;
      err == if items != [] then decodeError else if failure.Some? then failure else Some(NoRows)
    ensures row.RowsToRow? ==> value == if err.None? then Some(row.rows.cursor.items[0]) else None
  {
    match row {
      case ErrRow(e) =>
        return None, Some(e);
      case RowsToRow(rows) =>
        var more := rows.Next();
        if !more {
          rows.Close();
          var e := rows.Err();
          if e.Some? {
            return None, e;
          }
          return None, Some(NoRows);
        }
        if rows.cursor.decodeError.Some? {
          rows.Close();
          return None, rows.cursor.decodeError;
        }
        err := rows.Err();
        rows.Close();
        value := Some(rows.cursor.items[0]);
    }
  }

  // ------------------------------------------------------------------ what the breaker does not hear

  /** One QueryRow with its Scan. */
  datatype Fetch = Fetch(env: Env, cursor: Cursor) {
    /** What the caller gets when the breaker lets the call through. */
    function Result(): Option<Err> {
      if env.outcome.Some? then env.outcome else cursor.FirstError()
    }
  }

  predicate FetchOk(f: Fetch) {
    EnvOk(f.env) && (f.cursor.FirstError().Some? ==> WellFormed(f.cursor.FirstError().value))
  }

  /** The breaker after a list of fetches. */
  function FetchAll(cfg: Settings, b: Cb, fetches: seq<Fetch>): Cb
    requires forall i | 0 <= i < |fetches| :: FetchOk(fetches[i])
  {
    if fetches == [] then b
    else
      var n := |fetches| - 1;
      assert FetchOk(fetches[n]);
      Played(cfg, FetchAll(cfg, b, fetches[..n]), fetches[n].env)
  }

  /** The class the breaker hears is the class of what the caller gets exactly when the query failed to
      begin, or the reading of its first record met no error that counts. */
  lemma ReportAgreesIff(f: Fetch)
    requires FetchOk(f)
    ensures ShouldCount(f.env.outcome) == ShouldCount(f.Result()) <==>
      f.env.outcome.Some? || !ShouldCount(f.cursor.FirstError())
  {
    hide Is, AsPg;
  }

  /** Nothing the breaker hears of the fetch, nor of the calls beside it, counts. */
  predicate BeginsWell(env: Env)
    requires EnvOk(env)
  {
    !ShouldCount(env.outcome) && forall i | 0 <= i < |env.others| :: !Counted(env.others[i])
  }

  lemma FetchKeepsCalm(cfg: Settings, b: Cb, env: Env)
    requires EnvOk(env) && BeginsWell(env) && Calm(b)
    ensures Calm(Played(cfg, b, env))
  {
    hide ShouldCount, Play;
    UncountedKeepsCalm(cfg, b, CallBegins(env.begins));
    var begun := Begin(cfg, b, env.begins);
    UncountedNeverTrip(cfg, begun, env.others);
    UncountedKeepsCalm(cfg, Play(cfg, begun, env.others),
                       CallEnds(Admitted(cfg, b, env.begins).value, env.ends, env.outcome));
  }

  lemma CalmAdmits(cfg: Settings, b: Cb)
    ensures Calm(b) ==> forall now :: !Refuses(cfg, b, now)
  {
  }

  /** In every run whose queries begin without a counted error the breaker stays closed and counts no
      failure, whatever becomes of the cursors; so the next fetch is let through and its caller gets the
      error of its own cursor. */
  lemma {:induction false} BrokenCursorsNeverTrip(cfg: Settings, start: nat, fetches: seq<Fetch>)
    requires forall i | 0 <= i < |fetches| :: FetchOk(fetches[i]) && BeginsWell(fetches[i].env)
    ensures var b := FetchAll(cfg, Initial(cfg, start), fetches); Calm(b) && forall now :: !Refuses(cfg, b, now)
  {
    hide ShouldCount, Played, Calm, BeginsWell;
    CalmAdmits(cfg, FetchAll(cfg, Initial(cfg, start), fetches));
    if fetches == [] {
      InitialIsCalm(cfg, start);
    } else {
      var n := |fetches| - 1;
      BrokenCursorsNeverTrip(cfg, start, fetches[..n]);
      FetchKeepsCalm(cfg, FetchAll(cfg, Initial(cfg, start), fetches[..n]), fetches[n].env);
    }
  }

  const ADMIN_SHUTDOWN: Err := Pg("57P01")

  /** A fetch whose query begins and whose first record the server does not deliver; and one whose query
      meets the same server failure. */
  const SILENT: Fetch := Fetch(Env(0, [], 0, None), Cursor([], Some(ADMIN_SHUTDOWN), None))
  const HEARD: Fetch := Fetch(Env(0, [], 0, Some(ADMIN_SHUTDOWN)), Cursor([], None, None))

  lemma ShutdownCounts()
    ensures ShouldCount(Some(ADMIN_SHUTDOWN)) && WellFormed(ADMIN_SHUTDOWN)
  {
    assert ADMIN_SHUTDOWN.code[..2] == "57";
  }

  function Times(f: Fetch, n: nat): seq<Fetch> {
    seq(n, i => f)
  }

  lemma {:induction false} HeardFailures(n: nat)
    requires n <= 4
    ensures FetchOk(HEARD)
    ensures var b := FetchAll(DEFAULTS, Initial(DEFAULTS, 0), Times(HEARD, n));
      b.state == Closed && b.expiry == Some(DEFAULTS.interval) && b.counts == Counts(n, n, 0, n)
  {
    ShutdownCounts();
    hide ShouldCount;
    if n == 0 {
    } else {
      HeardFailures(n - 1);
      assert Times(HEARD, n)[..n - 1] == Times(HEARD, n - 1);
    }
  }

  /** With the default settings five such failures in a row open the breaker when the queries meet them,
      and leave it calm, its callers getting the very same error, when the cursors do. */
  lemma SameFailureUnheard()
    ensures SILENT.Result() == HEARD.Result() == Some(ADMIN_SHUTDOWN) && ShouldCount(SILENT.Result())
    ensures FetchOk(SILENT) && FetchOk(HEARD)
    ensures forall n :: Calm(FetchAll(DEFAULTS, Initial(DEFAULTS, 0), Times(SILENT, n)))
    ensures FetchAll(DEFAULTS, Initial(DEFAULTS, 0), Times(HEARD, 5)).state == Open
  {
    ShutdownCounts();
    HeardFailures(4);
    hide ShouldCount, Calm;
    forall n
      ensures Calm(FetchAll(DEFAULTS, Initial(DEFAULTS, 0), Times(SILENT, n)))
    {
      NoErrorIsUncounted();
      BrokenCursorsNeverTrip(DEFAULTS, 0, Times(SILENT, n));
    }
    assert Times(HEARD, 5)[..4] == Times(HEARD, 4);
  }

  lemma NoErrorIsUncounted()
    ensures !ShouldCount(None)
  {
  }

  /** One pool's breaker and its settings; the two pools may be tuned differently. */
  datatype Guard = Guard(cfg: Settings, cb: Cb) {
    function At(now: nat): Cb {
      Current(cfg, cb, now)
    }

    predicate Refused(now: nat) {
      Refuses(cfg, cb, now)
    }

    /** Half-open with all its probes let in and at least one of them still running. */
    predicate ProbesOut(now: nat) {
      && At(now).state == HalfOpen
      && At(now).counts.requests >= Probes(cfg)
      && At(now).counts.requests > |At(now).outcomes|
    }

    /** The state of some run of the breaker. */
    ghost predicate Reached() {
      exists start, events :: EventsOk(events) && cb == Play(cfg, Initial(cfg, start), events)
    }

    lemma HalfOpenAwaitsProbes(now: nat)
      requires Reached()
      ensures Refuses(cfg, At(now), now) <==> At(now).state == Open || ProbesOut(now)
      ensures Refused(now) <==> Refuses(cfg, At(now), now)
    {
      var start, events :| EventsOk(events) && cb == Play(cfg, Initial(cfg, start), events);
      hide Play;
      FreshMeans();
      PlayKeepsInv(cfg, Initial(cfg, start), events);
      StepKeepsInv(cfg, cb, Observed(now));
    }
  }

  /** Reader: the replica unless there is none or its breaker is open. */
  predicate ReadsReplica(replica: Option<Guard>, now: nat) {
    replica.Some? && replica.value.At(now).state != Open
  }

  /** Whether a routed read is turned away: asking for the replica's state may itself turn it half-open. */
  predicate ReadRefused(primary: Guard, replica: Option<Guard>, now: nat) {
    if ReadsReplica(replica, now) then Refuses(replica.value.cfg, replica.value.At(now), now)
    else primary.Refused(now)
  }

  /** In every run of the two breakers, a routed read is turned away exactly when the replica is half-open
      with all its probes let in and one of them still running, however healthy the primary is, or when
      there is no usable replica and the primary is open before its timeout or waits for a probe itself. */
  lemma ReadRefusedIff(primary: Guard, replica: Option<Guard>, now: nat)
    requires primary.Reached() && (replica.Some? ==> replica.value.Reached())
    ensures ReadRefused(primary, replica, now) <==>
      || (replica.Some? && replica.value.ProbesOut(now))
      || ((replica.None? || replica.value.At(now).state == Open) &&
          (primary.At(now).state == Open || primary.ProbesOut(now)))
  {
    primary.HalfOpenAwaitsProbes(now);
    if replica.Some? {
      replica.value.HalfOpenAwaitsProbes(now);
    }
  }

  function Begins(n: nat, now: nat): seq<Event> {
    seq(n, i => CallBegins(now))
  }

  lemma {:induction false} ProbesBegin(cfg: Settings, b: Cb, n: nat, now: nat)
    requires b.state == HalfOpen && b.counts.requests + n <= Probes(cfg)
    ensures EventsOk(Begins(n, now))
    ensures Play(cfg, b, Begins(n, now)) == b.(counts := b.counts.(requests := b.counts.requests + n))
  {
    if n == 0 {
    } else {
      ProbesBegin(cfg, b, n - 1, now);
      assert Begins(n, now)[..n - 1] == Begins(n - 1, now);
    }
  }

  /** So a reader does not always fall back: an open replica whose timeout has passed lets its probes
      through, and from then on, until one of them ends, every read is refused although the primary would
      have served it. */
  lemma ProbedReplicaStarvesReads(primary: Guard, replica: Guard, first: nat, second: nat)
    requires replica.cb.state == Open && replica.cb.expiry.Some? && replica.cb.expiry.value < first
    requires primary.cb.state == Closed
    ensures EventsOk(Begins(Probes(replica.cfg), first))
    ensures var probes := Begins(Probes(replica.cfg), first);
      var probing := Guard(replica.cfg, Play(replica.cfg, replica.At(first), probes));
      && probing.cb.state == HalfOpen && probing.cb.counts.requests == Probes(replica.cfg)
      && ReadRefused(primary, Some(probing), second)
      && !primary.Refused(second)
  {
    ProbesBegin(replica.cfg, replica.At(first), Probes(replica.cfg), first);
  }

  class Router {
    const primary: BreakerDB
    const replica: BreakerDB?

    constructor (primary: BreakerDB, replica: BreakerDB?)
      ensures this.primary == primary && this.replica == replica
    {
      this.primary, this.replica := primary, replica;
    }

    ghost predicate Valid()
      reads primary, replica
    {
      primary != replica && primary.Valid() && (replica != null ==> replica.Valid())
    }

    function Primary(): Guard
      reads primary
    {
      Guard(primary.cfg, primary.cb)
    }

    function Replica(): Option<Guard>
      reads replica
    {
      if replica == null then None else Some(Guard(replica.cfg, replica.cb))
    }

    /** Reader: prefer the replica, fall back to the primary when the replica's breaker is open. */
    method Reader(now: nat) returns (db: BreakerDB)
      requires Valid()
      modifies if replica == null then {} else {replica}
      ensures Valid()
      ensures replica != null && Current(replica.cfg, old(replica.cb), now).state != Open ==> db == replica
      ensures replica == null || Current(replica.cfg, old(replica.cb), now).state == Open ==> db == primary
      ensures replica != null ==>
        replica.cb == Current(replica.cfg, old(replica.cb), now) && replica.poolCalls == old(replica.poolCalls)
    {
      if replica != null {
        var state := replica.Observe(now);
        if state != Open {
          return replica;
        }
      }
      return primary;
    }

    /** Writes never look at the replica. */
    method Writer() returns (db: BreakerDB)
      ensures db == primary
    {
      return primary;
    }

    /** A read as the repository makes it: QueryRow on the reader's side and Scan of the row. It reaches one
        pool, or none when the chosen breaker refuses; there is no second try. A failing replica never
        touches the primary. */
    method Read(env: Env, rows: Rows) returns (value: Option<string>, err: Option<Err>)
      requires Valid() && EnvOk(env) && rows.read == 0 && !rows.ended
      modifies primary, if replica == null then {} else {replica}, rows
      ensures Valid()
      ensures ReadRefused(old(Primary()), old(Replica()), env.begins) ==>
        value == None && err == Some(CircuitOpen) && primary.poolCalls == old(primary.poolCalls)
        && (replica != null ==> replica.poolCalls == old(replica.poolCalls))
      ensures !ReadRefused(old(Primary()), old(Replica()), env.begins) ==>
        err == (if env.outcome.Some? then env.outcome else rows.cursor.FirstError())
        && value == if err.None? then Some(rows.cursor.items[0]) else None
      ensures ReadsReplica(old(Replica()), env.begins) ==>
        primary.cb == old(primary.cb) && primary.poolCalls == old(primary.poolCalls)
        && replica.cb == Played(replica.cfg, Current(replica.cfg, old(replica.cb), env.begins), env)
        && (!ReadRefused(old(Primary()), old(Replica()), env.begins) ==>
              replica.poolCalls == old(replica.poolCalls) + 1)
      ensures !ReadsReplica(old(Replica()), env.begins) ==>
        && primary.cb == Played(primary.cfg, old(primary.cb), env)
        && (replica != null ==>
              replica.poolCalls == old(replica.poolCalls)
              && replica.cb == Current(replica.cfg, old(replica.cb), env.begins))
        && (!ReadRefused(old(Primary()), old(Replica()), env.begins) ==>
              primary.poolCalls == old(primary.poolCalls) + 1)
    {
      hide Play, ShouldCount;
      var db := Reader(env.begins);
      var row := db.QueryRow(env, rows);
      value, err := Scan(row);
    }

    /** A write is one call of the primary, refused when its breaker refuses, whatever the replica could do. */
    method Write(env: Env) returns (err: Option<Err>)
      requires Valid() && EnvOk(env)
      modifies primary
      ensures Valid()
      ensures err == if old(Primary()).Refused(env.begins) then Some(CircuitOpen) else env.outcome
      ensures primary.poolCalls == old(primary.poolCalls) + if old(Primary()).Refused(env.begins) then 0 else 1
      ensures primary.cb == Played(primary.cfg, old(primary.cb), env)
    {
      hide Play, ShouldCount;
      var db := Writer();
      err := db.Exec(env);
    }
  }
}
