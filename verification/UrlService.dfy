/** The URL service and its repositories as objects, in the form of the program: methods that update the
    tables in place and a ShortenURL that loops over its attempts.

    Other replicas act on the same database between any two calls of a method: each call takes the list
    of actions they perform meanwhile, the state a replica read sees, and the fault it meets. `Valid`
    says that whatever happened is a run of the allocation protocol. */
module UrlService {
  import opened Prelude
  import opened UrlTable
  import opened ShortKeys
  import opened ShortenProtocol
  import opened SequentialShorten
  import AllocationTheorems
  import CallFailures

  datatype Env = Env(others: seq<Action>, seen: Option<nat>, fault: Fault)

  datatype Result = Ok(id: Id, key: string) | Err(why: Failure)

  predicate Mine(a: Action, p: Pid) {
    match a
    case Begin(q, _) => q == p
    case LookupStep(q, _, _) => q == p
    case CreateStep(q, _) => q == p
    case LogStep(q, _) => q == p
    case _ => false
  }

  /** The actions that do not belong to call `p`. */
  function Foreign(actions: seq<Action>, p: Pid): seq<Action> {
    if actions == [] then []
    else
      var rest := Foreign(actions[..|actions| - 1], p);
      if Mine(actions[|actions| - 1], p) then rest else rest + [actions[|actions| - 1]]
  }

  lemma NextLeavesCall(hash: Hash, s: Sys, a: Action, p: Pid)
    requires !Mine(a, p)
    ensures var s' := Next(hash, s, a);
      (p in s'.procs <==> p in s.procs) && (p in s.procs ==> s'.procs[p] == s.procs[p])
  {
  }

  lemma {:induction false} ForeignLeavesCall(hash: Hash, s: Sys, actions: seq<Action>, p: Pid)
    ensures var s' := Run(hash, s, Foreign(actions, p));
      (p in s'.procs <==> p in s.procs) && (p in s.procs ==> s'.procs[p] == s.procs[p])
  {
    if actions == [] {
    } else {
      var init, a := actions[..|actions| - 1], actions[|actions| - 1];
      ForeignLeavesCall(hash, s, init, p);
      if !Mine(a, p) {
        RunSnoc(hash, s, Foreign(init, p), a);
        NextLeavesCall(hash, Run(hash, s, Foreign(init, p)), a, p);
      }
    }
  }

  /** Nobody else acts, and lookups and inserts meet no fault and no replica. */
  predicate Quiet(env: seq<Env>) {
    forall i | 0 <= i < |env| :: env[i] == Env([], None, NoFault)
  }

  /** Nobody else acts. */
  predicate Undisturbed(env: seq<Env>) {
    forall i | 0 <= i < |env| :: env[i].others == []
  }

  /** The state a read is served from: the primary's current one, or an earlier one. */
  function ServingFrom(earlier: seq<Table>, rows: Table, seen: Option<nat>): Table {
    if seen.Some? && seen.value < |earlier| then earlier[seen.value] else rows
  }

  /** How the lookups of an undisturbed call are served. */
  function ServedBy(earlier: seq<Table>, rows: Table, env: seq<Env>): (served: seq<Served>)
    requires |env| == 8
    ensures |served| == 6
  {
    seq(6, i requires 0 <= i < 6 => Served(ServingFrom(earlier, rows, env[i].seen), env[i].fault))
  }

  lemma QuietViews(earlier: seq<Table>, rows: Table, env: seq<Env>)
    requires |env| == 8 && Quiet(env)
    ensures forall i | 0 <= i < 6 :: ServedBy(earlier, rows, env)[i] == Served(rows, NoFault)
    ensures Undisturbed(env) && env[6].fault == NoFault
  {
  }

  /** The lookups before `attempt` have all moved on. */
  ghost predicate Passed(hash: Hash, served: seq<Served>, url: string, attempt: nat) {
    |served| == 6 && attempt <= 6 && Stop(hash, served, url, 0) == Stop(hash, served, url, attempt)
  }

  lemma PassedNone(hash: Hash, served: seq<Served>, url: string)
    requires |served| == 6
    ensures Passed(hash, served, url, 0)
  {
  }

  /** The reply of lookup `attempt`. */
  function ReplyOf(served: Served, key: string): Reply {
    if served.fault != NoFault then Unavailable else Select(served.view, key)
  }

  /** What the reply of lookup `attempt` means for the call: its outcome, or that the lookup moved on. */
  lemma PassedReply(hash: Hash, served: seq<Served>, create: Fault, t: Table, url: string, attempt: nat)
    requires Passed(hash, served, url, attempt) && attempt < 6
    ensures var key := Slot(hash, url, attempt);
      match ReplyOf(served[attempt], key)
      case Found(id, row) =>
        if row.url == url then Outcome(hash, served, create, t, url) == Answer(t, Done(id, row.key))
        else Passed(hash, served, url, attempt + 1)
      case Unavailable => Outcome(hash, served, create, t, url) == Answer(t, Failed(LookupFailed))
      case NotFound => true
  {
  }

  /** The outcome of a call that goes on to insert. */
  lemma PassedCreates(hash: Hash, served: seq<Served>, create: Fault, t: Table, url: string, attempt: nat)
    requires Passed(hash, served, url, attempt)
    requires attempt < 6 ==> ReplyOf(served[attempt], Slot(hash, url, attempt)).NotFound?
    ensures var key := Slot(hash, url, attempt);
      Outcome(hash, served, create, t, url) == Answer(
        Insert(t, NewRow(url, key), create),
        match AfterCreate(t, key, create) case Log(id, k) => Done(id, k) case pc => pc)
  {
  }

  /** Lookup `j` fails, and those before it moved on. */
  predicate FaultReached(hash: Hash, earlier: seq<Table>, rows: Table, url: string, env: seq<Env>, j: nat)
    requires |env| == 8 && j < 6
  {
    env[j].fault != NoFault && forall i | 0 <= i < j :: MovesOn(hash, ServedBy(earlier, rows, env), url, i)
  }

  /** A reached lookup that fails ends the call. */
  lemma FaultEndsCall(hash: Hash, earlier: seq<Table>, rows: Table, url: string, env: seq<Env>)
    requires |env| == 8
    ensures (exists j :: 0 <= j < 6 && FaultReached(hash, earlier, rows, url, env, j)) ==>
      Outcome(hash, ServedBy(earlier, rows, env), env[6].fault, rows, url) == Answer(rows, Failed(LookupFailed))
  {
    hide MovesOn, Outcome;
    if j :| 0 <= j < 6 && FaultReached(hash, earlier, rows, url, env, j) {
      OutcomeCases(hash, ServedBy(earlier, rows, env), env[6].fault, rows, url, j);
    }
  }

  class Database {
    const hash: Hash
    var rows: Table             // the urls table of the primary
    var earlier: seq<Table>     // its earlier states, any of which a replica may serve
    var calls: map<Pid, Proc>   // where every ShortenURL call of every replica is
    var logs: seq<Id>           // the incoming_requests table
    var attempts: seq<Attempt>
    var pending: seq<Id>
    var stamped: seq<Stamping>
    var reported: nat
    var unreported: nat
    ghost var trace: seq<Action>

    function View(): Sys
      reads this
    {
      Sys(earlier + [rows], calls, logs, attempts, pending, stamped, reported, unreported)
    }

    ghost predicate Valid()
      reads this
    {
      View() == Run(hash, INIT, trace)
    }

    function Serving(seen: Option<nat>): Table
      reads this
    {
      ServingFrom(earlier, rows, seen)
    }

    lemma ServingIsSeen(seen: Option<nat>)
      ensures Serving(seen) == Seen(View(), seen)
    {
    }

    constructor (hash: Hash)
      ensures Valid() && this.hash == hash && View() == INIT
    {
      this.hash := hash;
      rows, earlier, calls, logs, attempts := [], [], map[], [], [];
      pending, stamped, reported, unreported, trace := [], [], 0, 0, [];
    }

    lemma ViewPrimary()
      ensures View().Primary() == rows
      ensures View().history[..|earlier|] == earlier
    {
    }

    lemma ReadIsOfRows(key: string, seen: Option<nat>, fault: Fault)
      requires Valid()
      ensures ReplySound(rows, key, Read(View(), key, seen, fault))
    {
      Reachable(hash, trace);
      ViewPrimary();
      ReadIsSound(View(), key, seen, fault);
    }

    /** A call about to log has its row on the primary. */
    lemma LogsItsRow(p: Pid)
      requires Valid() && p in calls && calls[p].pc.Log?
      ensures calls[p].pc.id < |rows|
    {
      hide Run, RowsInv;
      Reachable(hash, trace);
      ViewPrimary();
      assert PcInv(hash, rows, calls[p].url, calls[p].pc);
    }

    /** A call that has returned has its row on the primary and tried one log; no other call tried any. */
    lemma ReturnsItsRow(p: Pid)
      requires Valid() && p in calls
      ensures calls[p].pc.Done? ==>
        var Proc(url, Done(id, key)) := calls[p];
        id < |rows| && rows[id].url == url && rows[id].key == key
      ensures LogAttempts(attempts, p) == if calls[p].pc.Done? then 1 else 0
    {
      hide Run, RowsInv, LogAttempts, LoggedRows;
      AllocationTheorems.BooksOfEveryRun(hash, trace, p);
      Reachable(hash, trace);
      ViewPrimary();
      assert PcInv(hash, rows, calls[p].url, calls[p].pc);
    }

    /** The cause of a failed call is one of its own steps. */
    lemma Causes(p: Pid, res: Result)
      requires Valid() && p in calls
      requires calls[p].pc == match res case Ok(id, key) => Done(id, key) case Err(why) => Failed(why)
      ensures forall why :: res == Err(why) <==> exists n :: CallFailures.Fails(hash, trace, n, p, why)
    {
      hide Run, CallFailures.Fails;
      forall why
        ensures res == Err(why) <==> exists n :: CallFailures.Fails(hash, trace, n, p, why)
      {
        CallFailures.FailedIff(hash, trace, p, why);
      }
    }

    /** Record that the last update was action `a`. */
    ghost method Note(before: Sys, a: Action)
      requires before == Run(hash, INIT, trace) && View() == Next(hash, before, a)
      modifies this`trace
      ensures Valid() && trace == old(trace) + [a]
    {
      RunSnoc(hash, INIT, trace, a);
      trace := trace + [a];
    }

    /** Other replicas act. */
    method Interfere(p: Pid, others: seq<Action>)
      requires Valid()
      modifies this
      ensures Valid() && trace == old(trace) + Foreign(others, p)
      ensures View() == Run(hash, old(View()), Foreign(others, p))
      ensures p in calls <==> p in old(calls)
      ensures p in calls ==> calls[p] == old(calls)[p]
      ensures others == [] ==> View() == old(View()) && rows == old(rows) && earlier == old(earlier)
    {
      hide Run, Find, LoggedRows, LogAttempts;
      ghost var before := View();
      var s := Run(hash, View(), Foreign(others, p));
      ForeignLeavesCall(hash, before, others, p);
      AllocationTheorems.RunNone(hash, before);
      RunConcat(hash, INIT, trace, Foreign(others, p));
      AllocationTheorems.RunExtendsHistory(hash, before, Foreign(others, p));
      ViewPrimary();
      earlier, rows := s.history[..|s.history| - 1], s.history[|s.history| - 1];
      calls, logs, attempts, pending := s.procs, s.logs, s.attempts, s.pending;
      stamped, reported, unreported := s.stamped, s.reported, s.unreported;
      trace := trace + Foreign(others, p);
      assert earlier + [rows] == s.history;
    }

    method Enter(p: Pid, url: string)
      requires Valid() && p !in calls
      modifies this
      ensures Valid() && trace == old(trace) + [Begin(p, url)] && rows == old(rows) && earlier == old(earlier)
      ensures logs == old(logs)
      ensures p in calls && calls[p] == Proc(url, Lookup(0, ShortKey(hash, url)))
    {
      hide Run, Find, LoggedRows, LogAttempts;
      ghost var before := View();
      calls := calls[p := Proc(url, Lookup(0, ShortKey(hash, url)))];
      Note(before, Begin(p, url));
    }

    method GetByShortKey(p: Pid, key: string, env: Env) returns (reply: Reply)
      requires Valid() && p in calls && calls[p].pc.Lookup? && calls[p].pc.key == key
      modifies this
      ensures Valid() && trace == old(trace) + Foreign(env.others, p) + [LookupStep(p, env.seen, env.fault)]
      ensures p in calls
      ensures var Proc(url, pc) := old(calls)[p];
        calls[p] == Proc(url, AfterLookup(hash, url, pc.attempt, pc.key, reply))
      ensures env.fault != NoFault ==> reply == Unavailable
      ensures env.fault == NoFault ==> Selects(Serving(env.seen), key, reply)
      ensures env.others == [] ==>
        && rows == old(rows) && earlier == old(earlier) && logs == old(logs)
        && reply == ReplyOf(Served(old(Serving(env.seen)), env.fault), key)
    {
      Interfere(p, env.others);
      hide Run, Find, LoggedRows, LogAttempts;
      ghost var before := View();
      ViewPrimary();
      reply := Read(View(), key, env.seen, env.fault);
      ServingIsSeen(env.seen);
      SelectSelects(Serving(env.seen), key);
      var Proc(url, pc) := calls[p];
      calls := calls[p := Proc(url, AfterLookup(hash, url, pc.attempt, pc.key, reply))];
      Note(before, LookupStep(p, env.seen, env.fault));
    }

    method Create(p: Pid, url: string, key: string, env: Env) returns (pc: Pc)
      requires Valid() && p in calls && calls[p].pc.Create? && calls[p].pc.key == key && calls[p].url == url
      modifies this
      ensures Valid() && trace == old(trace) + Foreign(env.others, p) + [CreateStep(p, env.fault)]
      ensures p in calls && calls[p] == Proc(url, pc) && (pc.Log? || pc.Failed?)
      ensures pc.Log? ==> pc.key == key && rows != [] && rows[|rows| - 1] == NewRow(url, key) && pc.id == |rows| - 1
      ensures env.fault != NoFault ==> pc == Failed(CreateFailed)
      ensures env.fault == NoFault && pc.Failed? ==> pc == Failed(Conflict) && Occupied(rows, key)
      ensures env.others == [] ==> pc == AfterCreate(old(rows), key, env.fault)
      ensures env.others == [] ==> rows == Insert(old(rows), NewRow(url, key), env.fault) && logs == old(logs)
    {
      Interfere(p, env.others);
      hide Run, Find, LoggedRows, LogAttempts, Occupied;
      ghost var before := View();
      ViewPrimary();
      CallFailures.OccupiedIff(rows, key);
      pc := AfterCreate(rows, key, env.fault);
      earlier := earlier + [rows];
      if env.fault != Lost && Find(rows, key).None? {
        rows := rows + [NewRow(url, key)];
      }
      calls := calls[p := Proc(url, pc)];
      assert earlier + [rows] == before.history + [rows];
      Note(before, CreateStep(p, env.fault));
    }

    method LogCreateRequest(p: Pid, id: Id, env: Env)
      requires Valid() && p in calls && calls[p].pc.Log? && calls[p].pc.id == id
      modifies this
      ensures Valid() && trace == old(trace) + Foreign(env.others, p) + [LogStep(p, env.fault)]
      ensures p in calls && calls[p] == Proc(old(calls)[p].url, Done(id, old(calls)[p].pc.key))
      ensures env.others == [] ==>
        rows == old(rows) && logs == old(logs) + if env.fault != Lost then [id] else []
    {
      Interfere(p, env.others);
      hide Run, Find, LoggedRows, LogAttempts;
      ghost var before := View();
      ViewPrimary();
      var Proc(url, pc) := calls[p];
      LogsItsRow(p);
      if env.fault != Lost && id < |rows| {
        logs := logs + [id];
      }
      attempts := attempts + [Attempt(p, env.fault != Lost)];
      calls := calls[p := Proc(url, Done(id, pc.key))];
      Note(before, LogStep(p, env.fault));
    }

    /** One of the goroutines started by Redirect: `UpdateLastUsed` for the row it was started for. */
    method UpdateLastUsed(k: nat, at: int, fault: Fault)
      requires Valid() && k < |pending|
      modifies this
      ensures Valid() && trace == old(trace) + [StampStep(k, at, fault)]
      ensures pending == old(pending)[..k] + old(pending)[k + 1..]
      ensures var id := old(pending)[k];
        id < |old(rows)| && rows == if fault == Lost then old(rows) else old(rows)[id := old(rows)[id].(lastUsed := at)]
    {
      hide Run, Find, LoggedRows, LogAttempts;
      ghost var before := View();
      ViewPrimary();
      Reachable(hash, trace);
      var id := pending[k];
      pending := pending[..k] + pending[k + 1..];
      if fault != Lost {
        earlier := earlier + [rows];
        if id < |rows| {
          rows := rows[id := rows[id].(lastUsed := at)];
        }
        stamped := stamped + [Stamping(id, at)];
        assert earlier + [rows] == before.history + [rows];
      }
      Note(before, StampStep(k, at, fault));
      assert id < |before.Primary()|;
    }

    method DeleteUnusedSince(cutoff: int, at: int, fault: Fault) returns (count: Option<nat>)
      requires Valid()
      modifies this
      ensures Valid() && trace == old(trace) + [SweepStep(cutoff, at, fault)]
      ensures if fault == Lost then rows == old(rows) else Swept(old(rows), rows, cutoff, at)
      ensures count.Some? <==> fault == NoFault
      ensures count.Some? ==>
        count.value == |set i | 0 <= i < |old(rows)| && old(rows)[i].deletedAt.None? && old(rows)[i].lastUsed < cutoff|
      ensures reported == old(reported) + if count.Some? then count.value else 0
      ensures DeadRows(rows) == reported + unreported
    {
      hide Run, Find, LoggedRows, LogAttempts;
      ghost var before := View();
      ViewPrimary();
      count := None;
      SweepSweeps(rows, cutoff, at);
      StaleRowsAreCounted(rows, cutoff);
      if fault != Lost {
        var n := StaleRows(rows, cutoff);
        earlier := earlier + [rows];
        rows := Sweep(rows, cutoff, at);
        if fault == NoFault {
          reported, count := reported + n, Some(n);
        } else {
          unreported := unreported + n;
        }
        assert earlier + [rows] == before.history + [rows];
      }
      Note(before, SweepStep(cutoff, at, fault));
      Reachable(hash, trace);
      ViewPrimary();
    }
  }

  class Service {
    const db: Database

    constructor (db: Database)
      ensures this.db == db
    {
      this.db := db;
    }

    /** ShortenURL. Whatever other replicas do and however its own calls fail, the call is a participant
        of the protocol, so every theorem about runs applies to it; a returned key belongs to a row of
        the URL, exactly one log was attempted for it, and an error has its cause in one of the call's own
        steps. When nobody else acts, its outcome is determined by what its lookups and its insert meet; a
        lookup that fails when it is reached ends the call. Quiet calls return what the specification says. */
    method ShortenURL(p: Pid, url: string, env: seq<Env>) returns (res: Result)
      requires db.Valid() && p !in db.calls && |env| == 8
      modifies db
      ensures db.Valid() && old(db.trace) <= db.trace
      ensures p in db.calls && db.calls[p].url == url
      ensures db.calls[p].pc == match res case Ok(id, key) => Done(id, key) case Err(why) => Failed(why)
      ensures res.Ok? ==> res.id < |db.rows| && db.rows[res.id].url == url && db.rows[res.id].key == res.key
      ensures LogAttempts(db.attempts, p) == if res.Ok? then 1 else 0
      ensures forall why :: res == Err(why) <==> exists n :: CallFailures.Fails(db.hash, db.trace, n, p, why)
      ensures env[0].fault != NoFault ==> res == Err(LookupFailed)
      ensures Undisturbed(env) ==>
        Outcome(db.hash, ServedBy(old(db.earlier), old(db.rows), env), env[6].fault, old(db.rows), url)
          == Answer(db.rows, db.calls[p].pc)
      ensures Undisturbed(env) ==>
        forall j | 0 <= j < 6 && FaultReached(db.hash, old(db.earlier), old(db.rows), url, env, j) ::
          res == Err(LookupFailed) && db.rows == old(db.rows)
      ensures Undisturbed(env) ==>
        db.logs == old(db.logs) + if res.Ok? && env[7].fault != Lost then [res.id] else []
      ensures Quiet(env) ==> Expected(db.hash, old(db.rows), url) == Answer(db.rows, db.calls[p].pc)
    {
      hide Run, Outcome, MovesOn, Lagged, LogAttempts, CallFailures.Fails, Database.View, ServedBy, FaultReached;
      res := Probe(p, url, env);
      db.ReturnsItsRow(p);
      db.Causes(p, res);
      ghost var served, t := ServedBy(old(db.earlier), old(db.rows), env), old(db.rows);
      FaultEndsCall(db.hash, old(db.earlier), t, url, env);
      if Quiet(env) {
        QuietViews(old(db.earlier), t, env);
        QuietOutcome(db.hash, served, t, t, url);
      }
    }

    method Probe(p: Pid, url: string, env: seq<Env>) returns (res: Result)
      requires db.Valid() && p !in db.calls && |env| == 8
      modifies db
      ensures db.Valid() && old(db.trace) <= db.trace
      ensures p in db.calls && db.calls[p].url == url
      ensures db.calls[p].pc == match res case Ok(id, key) => Done(id, key) case Err(why) => Failed(why)
      ensures env[0].fault != NoFault ==> res == Err(LookupFailed)
      ensures Undisturbed(env) ==>
        Outcome(db.hash, ServedBy(old(db.earlier), old(db.rows), env), env[6].fault, old(db.rows), url)
          == Answer(db.rows, db.calls[p].pc)
      ensures Undisturbed(env) ==>
        db.logs == old(db.logs) + if res.Ok? && env[7].fault != Lost then [res.id] else []
    {
      hide IsKeyOf, Run, Next, Find, Stop, Outcome, ShortKey, Salted, Passed, Foreign, Select;
      hide Insert, AfterCreate, Database.View, LogAttempts, LoggedRows, Selects, Occupied, ServingFrom;
      ghost var t, served, create := db.rows, ServedBy(db.earlier, db.rows, env), env[6].fault;
      db.Enter(p, url);
      var shortKey := ShortKeyFromURL(db.hash, url);
      PassedNone(db.hash, served, url);
      var attempt := 0;
      while attempt <= MAX_COLLISION_RETRIES
        invariant 0 <= attempt <= 6
        invariant db.Valid() && old(db.trace) <= db.trace
        invariant p in db.calls && shortKey == Slot(db.hash, url, attempt)
        invariant db.calls[p] == Proc(url, if attempt <= 5 then Lookup(attempt, shortKey) else Create(6, shortKey))
        invariant attempt > 0 ==> env[0].fault == NoFault
        invariant Undisturbed(env) ==>
          && db.rows == t && db.earlier == old(db.earlier) && db.logs == old(db.logs)
          && Passed(db.hash, served, url, attempt)
      {
        var existing := db.GetByShortKey(p, shortKey, env[attempt]);
        if Undisturbed(env) {
          PassedReply(db.hash, served, create, t, url, attempt);
        }
        match existing {
          case Found(id, row) =>
            if row.url == url {
              db.LogCreateRequest(p, id, env[7]);
              return Ok(id, row.key);
            }
            shortKey := ShortKeyFromURL(db.hash, Salted(url, attempt + 1));
          case NotFound =>
            break;
          case Unavailable =>
            return Err(LookupFailed);
        }
        attempt := attempt + 1;
      }
      if Undisturbed(env) {
        PassedCreates(db.hash, served, create, t, url, attempt);
      }
      res := CreateAndLog(p, url, shortKey, env[6], env[7]);
    }

    /** The tail of ShortenURL. */
    method CreateAndLog(p: Pid, url: string, key: string, create: Env, log: Env) returns (res: Result)
      requires db.Valid() && p in db.calls && db.calls[p].pc.Create?
      requires db.calls[p].pc.key == key && db.calls[p].url == url
      modifies db
      ensures db.Valid() && old(db.trace) <= db.trace
      ensures p in db.calls && db.calls[p].url == url
      ensures db.calls[p].pc == match res case Ok(id, key) => Done(id, key) case Err(why) => Failed(why)
      ensures create.others == [] && log.others == [] ==>
        && db.rows == Insert(old(db.rows), NewRow(url, key), create.fault)
        && db.calls[p].pc ==
             (match AfterCreate(old(db.rows), key, create.fault) case Log(id, k) => Done(id, k) case pc => pc)
        && db.logs == old(db.logs) + if res.Ok? && log.fault != Lost then [res.id] else []
    {
      hide Run, Next, Find, Insert, AfterCreate, Foreign, Database.View, LogAttempts, LoggedRows, Occupied;
      var created := db.Create(p, url, key, create);
      if created.Failed? {
        return Err(created.why);
      }
      db.LogCreateRequest(p, created.id, log);
      return Ok(created.id, key);
    }

    /** Redirect. A lookup that fails is an error and starts nothing. Any other is answered from the state
        that serves it, the primary or an earlier one: with a live row of the key if that state has one, and
        then one goroutine is started that will stamp that row, else with not-found. The row is still on the
        primary under the same key and URL. */
    method Redirect(key: string, seen: Option<nat>, fault: Fault) returns (reply: Reply)
      requires db.Valid()
      modifies db
      ensures db.Valid() && db.trace == old(db.trace) + [Visit(key, seen, fault)]
      ensures db.rows == old(db.rows) && db.earlier == old(db.earlier)
      ensures fault != NoFault ==> reply.Unavailable?
      ensures fault == NoFault ==> Selects(db.Serving(seen), key, reply)
      ensures db.pending == if reply.Found? then old(db.pending) + [reply.id] else old(db.pending)
      ensures reply.Found? ==> reply.id < |db.rows| && reply.row.key == key && db.rows[reply.id].key == key
                               && db.rows[reply.id].url == reply.row.url
    {
      hide Run, Find, LoggedRows, LogAttempts;
      ghost var before := db.View();
      db.ViewPrimary();
      reply := Read(db.View(), key, seen, fault);
      db.ServingIsSeen(seen);
      SelectSelects(db.Serving(seen), key);
      db.ReadIsOfRows(key, seen, fault);
      if reply.Found? {
        db.pending := db.pending + [reply.id];
      }
      db.Note(before, Visit(key, seen, fault));
    }

    /** RunCleanup: sweep everything not used for `threshold`. */
    method RunCleanup(now: int, threshold: int, at: int, fault: Fault) returns (count: Option<nat>)
      requires db.Valid()
      modifies db
      ensures db.Valid()
      ensures count.Some? <==> fault == NoFault
      ensures |db.rows| == |old(db.rows)|
      ensures fault == Lost ==> db.rows == old(db.rows)
      ensures fault != Lost ==> forall i | 0 <= i < |db.rows| ::
        db.rows[i] ==
          if old(db.rows)[i].deletedAt.Some? || now - old(db.rows)[i].lastUsed <= threshold then old(db.rows)[i]
          else old(db.rows)[i].(deletedAt := Some(at), active := false)
      ensures count.Some? ==>
        count.value == |set i | 0 <= i < |db.rows| && old(db.rows)[i].deletedAt.None? && db.rows[i].deletedAt.Some?|
      ensures DeadRows(db.rows) == db.reported + db.unreported
    {
      var cutoff := now - threshold;
      count := db.DeleteUnusedSince(cutoff, at, fault);
      assert fault == NoFault ==>
        (set i | 0 <= i < |db.rows| && old(db.rows)[i].deletedAt.None? && db.rows[i].deletedAt.Some?)
          == set i | 0 <= i < |old(db.rows)| && old(db.rows)[i].deletedAt.None? && old(db.rows)[i].lastUsed < cutoff;
    }
  }
}
