/** Short-key allocation as a distributed protocol.

    Any number of ShortenURL calls, redirects, last-used stamps and cleanup sweeps share one primary.
    Every database call is one atomic step, and the steps of all calls interleave freely. A lookup may
    be served by a replica, that is, by any earlier state of the primary; any call may fail, with or
    without having taken effect. An action that is not enabled leaves the system as it is, so every
    list of actions is a run. */
module ShortenProtocol {
  import opened Prelude
  import opened UrlTable
  import opened ShortKeys

  const MAX_COLLISION_RETRIES: nat := 5

  type Pid = nat

  datatype Failure = LookupFailed | CreateFailed | Conflict

  /** Where a ShortenURL call is: `key` is its local variable, `attempt` its loop counter. */
  datatype Pc =
    | Lookup(attempt: nat, key: string)
    | Create(attempt: nat, key: string)
    | Log(id: Id, key: string)
    | Done(id: Id, key: string)
    | Failed(why: Failure)

  datatype Proc = Proc(url: string, pc: Pc)

  datatype Stamping = Stamping(id: Id, at: int)

  /** A call's insert into the request log, and whether it reached the database. */
  datatype Attempt = Attempt(p: Pid, stored: bool)

  /** The whole system. `history` holds every state the primary went through, the current one last;
      `attempts` the log inserts that calls tried; `pending` the goroutines started by redirects;
      `stamped` the stamps the primary executed; `reported` and `unreported` the rows counted by
      sweeps whose reply arrived or was lost. */
  datatype Sys = Sys(
    history: seq<Table>,
    procs: map<Pid, Proc>,
    logs: seq<Id>,
    attempts: seq<Attempt>,
    pending: seq<Id>,
    stamped: seq<Stamping>,
    reported: nat,
    unreported: nat)
  {
    function Primary(): Table {
      Latest(history)
    }

    function Commit(t: Table): Sys {
      this.(history := history + [t])
    }
  }

  function Latest(history: seq<Table>): Table {
    if history == [] then [] else history[|history| - 1]
  }

  const INIT: Sys := Sys([[]], map[], [], [], [], [], 0, 0)

  datatype Action =
    | Begin(p: Pid, url: string)
    | LookupStep(p: Pid, seen: Option<nat>, fault: Fault)
    | CreateStep(p: Pid, fault: Fault)
    | LogStep(p: Pid, fault: Fault)
    | Visit(key: string, seen: Option<nat>, fault: Fault)
    | StampStep(k: nat, at: int, fault: Fault)
    | SweepStep(cutoff: int, at: int, fault: Fault)

  datatype Reply = Found(id: Id, row: Row) | NotFound | Unavailable

  /** The state a read sees: the chosen earlier state, or the primary itself. */
  function Seen(s: Sys, seen: Option<nat>): Table {
    if seen.Some? && seen.value < |s.history| then s.history[seen.value] else s.Primary()
  }

  function Select(t: Table, key: string): Reply {
    match Find(t, key)
    case None => NotFound
    case Some(id) => Found(id, t[id])
  }

  /** What a lookup in `t` must answer: some live row of the key, or that there is none. */
  ghost predicate Selects(t: Table, key: string, reply: Reply) {
    match reply
    case Found(id, row) => id < |t| && t[id] == row && row.key == key && row.deletedAt.None?
    case NotFound => forall i | 0 <= i < |t| :: !(t[i].key == key && t[i].deletedAt.None?)
    case Unavailable => false
  }

  lemma SelectSelects(t: Table, key: string)
    ensures Selects(t, key, Select(t, key))
  {
  }

  /** `GetByShortKey`. */
  function Read(s: Sys, key: string, seen: Option<nat>, fault: Fault): Reply {
    if fault != NoFault then Unavailable else Select(Seen(s, seen), key)
  }

  /** What the loop of ShortenURL does with the answer of a lookup. */
  function AfterLookup(hash: Hash, url: string, attempt: nat, key: string, reply: Reply): Pc {
    match reply
    case Unavailable => Failed(LookupFailed)
    case NotFound => Create(attempt, key)
    case Found(id, row) =>
      if row.url == url then Log(id, row.key)
      else
        var salted := ShortKey(hash, Salted(url, attempt + 1));
        if attempt < MAX_COLLISION_RETRIES then Lookup(attempt + 1, salted) else Create(attempt + 1, salted)
  }

  /** `Create` on the primary: the unique index refuses a key that is live. */
  function Insert(t: Table, row: Row, fault: Fault): Table {
    if fault == Lost || Find(t, row.key).Some? then t else t + [row]
  }

  function AfterCreate(t: Table, key: string, fault: Fault): Pc {
    if fault != NoFault then Failed(CreateFailed)
    else if Find(t, key).Some? then Failed(Conflict)
    else Log(|t|, key)
  }

  /** The insert into incoming_requests, whose url_id must name a row of the primary. */
  function InsertLog(t: Table, logs: seq<Id>, id: Id, fault: Fault): seq<Id> {
    if fault == Lost || id >= |t| then logs else logs + [id]
  }

  function Set(s: Sys, p: Pid, pc: Pc): Sys
    requires p in s.procs
  {
    s.(procs := s.procs[p := s.procs[p].(pc := pc)])
  }

  function DoBegin(hash: Hash, s: Sys, p: Pid, url: string): Sys {
    if p in s.procs then s
    else s.(procs := s.procs[p := Proc(url, Lookup(0, ShortKey(hash, url)))])
  }

  function DoLookup(hash: Hash, s: Sys, p: Pid, seen: Option<nat>, fault: Fault): Sys {
    if p in s.procs && s.procs[p].pc.Lookup? then
      var Proc(url, pc) := s.procs[p];
      Set(s, p, AfterLookup(hash, url, pc.attempt, pc.key, Read(s, pc.key, seen, fault)))
    else s
  }

  function DoCreate(s: Sys, p: Pid, fault: Fault): Sys {
    if p in s.procs && s.procs[p].pc.Create? then
      var Proc(url, pc) := s.procs[p];
      Set(s.Commit(Insert(s.Primary(), NewRow(url, pc.key), fault)), p, AfterCreate(s.Primary(), pc.key, fault))
    else s
  }

  function DoLog(s: Sys, p: Pid, fault: Fault): Sys {
    if p in s.procs && s.procs[p].pc.Log? then
      var pc := s.procs[p].pc;
      Set(s, p, Done(pc.id, pc.key))
        .(logs := InsertLog(s.Primary(), s.logs, pc.id, fault), attempts := s.attempts + [Attempt(p, fault != Lost)])
    else s
  }

  /** The lookup of Redirect, which starts a goroutine that will stamp the row it found. */
  function DoVisit(s: Sys, key: string, seen: Option<nat>, fault: Fault): Sys {
    var reply := Read(s, key, seen, fault);
    if reply.Found? then s.(pending := s.pending + [reply.id]) else s
  }

  /** One of those goroutines runs: its clock was read earlier, so its time may be older than that of
      a stamp already executed. */
  function DoStamp(s: Sys, k: nat, at: int, fault: Fault): Sys {
    if k < |s.pending| then
      var id, rest := s.pending[k], s.pending[..k] + s.pending[k + 1..];
      if fault == Lost then s.(pending := rest)
      else s.Commit(Stamp(s.Primary(), id, at)).(pending := rest, stamped := s.stamped + [Stamping(id, at)])
    else s
  }

  function DoSweep(s: Sys, cutoff: int, at: int, fault: Fault): Sys {
    var n := StaleRows(s.Primary(), cutoff);
    match fault
    case Lost => s
    case NoFault => s.Commit(Sweep(s.Primary(), cutoff, at)).(reported := s.reported + n)
    case Ambiguous => s.Commit(Sweep(s.Primary(), cutoff, at)).(unreported := s.unreported + n)
  }

  function Next(hash: Hash, s: Sys, a: Action): Sys {
    match a
    case Begin(p, url) => DoBegin(hash, s, p, url)
    case LookupStep(p, seen, fault) => DoLookup(hash, s, p, seen, fault)
    case CreateStep(p, fault) => DoCreate(s, p, fault)
    case LogStep(p, fault) => DoLog(s, p, fault)
    case Visit(key, seen, fault) => DoVisit(s, key, seen, fault)
    case StampStep(k, at, fault) => DoStamp(s, k, at, fault)
    case SweepStep(cutoff, at, fault) => DoSweep(s, cutoff, at, fault)
  }

  function Run(hash: Hash, s: Sys, trace: seq<Action>): Sys {
    if trace == [] then s
    else Next(hash, Run(hash, s, trace[..|trace| - 1]), trace[|trace| - 1])
  }

  lemma RunSnoc(hash: Hash, s: Sys, trace: seq<Action>, a: Action)
    ensures Run(hash, s, trace + [a]) == Next(hash, Run(hash, s, trace), a)
  {
    assert (trace + [a])[..|trace|] == trace;
  }

  lemma {:induction false} RunConcat(hash: Hash, s: Sys, first: seq<Action>, second: seq<Action>)
    ensures Run(hash, s, first + second) == Run(hash, Run(hash, s, first), second)
    decreases |second|
  {
    if second == [] {
      assert first + second == first;
    } else {
      var n := |second| - 1;
      RunConcat(hash, s, first, second[..n]);
      assert (first + second)[..|first + second| - 1] == first + second[..n];
    }
  }

  // ------------------------------------------------------------------ the invariant of every run

  ghost predicate OnProbe(hash: Hash, row: Row) {
    exists j :: 0 <= j <= 6 && row.key == Slot(hash, row.url, j)
  }

  ghost predicate PcInv(hash: Hash, t: Table, url: string, pc: Pc) {
    match pc
    case Lookup(attempt, key) => attempt <= 5 && key == Slot(hash, url, attempt)
    case Create(attempt, key) => attempt <= 6 && key == Slot(hash, url, attempt)
    case Log(id, key) => id < |t| && t[id].url == url && t[id].key == key
    case Done(id, key) => id < |t| && t[id].url == url && t[id].key == key
    case Failed(_) => true
  }

  function LogAttempts(attempts: seq<Attempt>, p: Pid): nat {
    if attempts == [] then 0
    else LogAttempts(attempts[..|attempts| - 1], p) + if attempts[|attempts| - 1].p == p then 1 else 0
  }

  /** The rows that the calls behind the stored attempts returned, in order. */
  function LoggedRows(attempts: seq<Attempt>, procs: map<Pid, Proc>): seq<Id> {
    if attempts == [] then []
    else
      var rest, last := LoggedRows(attempts[..|attempts| - 1], procs), attempts[|attempts| - 1];
      if last.stored && last.p in procs && procs[last.p].pc.Done? then rest + [procs[last.p].pc.id] else rest
  }

  /** The time of the last stamp executed for a row; the zero time when there was none. */
  function LastStamp(stamped: seq<Stamping>, id: Id): int {
    if stamped == [] then ZERO_TIME
    else if stamped[|stamped| - 1].id == id then stamped[|stamped| - 1].at
    else LastStamp(stamped[..|stamped| - 1], id)
  }

  ghost predicate RowsInv(hash: Hash, t: Table, stamped: seq<Stamping>) {
    && UniqueLive(t)
    && ActiveAgrees(t)
    && (forall i | 0 <= i < |t| :: OnProbe(hash, t[i]))
    && (forall i | 0 <= i < |t| :: t[i].lastUsed == LastStamp(stamped, i))
    && (forall i | 0 <= i < |stamped| :: stamped[i].id < |t|)
  }

  ghost predicate HistoryInv(history: seq<Table>) {
    history != [] && forall i | 0 <= i < |history| :: Evolves(history[i], Latest(history))
  }

  ghost predicate ProcsInv(hash: Hash, t: Table, procs: map<Pid, Proc>) {
    forall p | p in procs :: PcInv(hash, t, procs[p].url, procs[p].pc)
  }

  ghost predicate Known(t: Table, ids: seq<Id>) {
    forall i | 0 <= i < |ids| :: ids[i] < |t|
  }

  ghost predicate AttemptsInv(attempts: seq<Attempt>, procs: map<Pid, Proc>) {
    && (forall p :: LogAttempts(attempts, p) == if p in procs && procs[p].pc.Done? then 1 else 0)
    && (forall i | 0 <= i < |attempts| :: attempts[i].p in procs && procs[attempts[i].p].pc.Done?)
  }

  ghost predicate Inv(hash: Hash, s: Sys) {
    && HistoryInv(s.history)
    && RowsInv(hash, s.Primary(), s.stamped)
    && ProcsInv(hash, s.Primary(), s.procs)
    && Known(s.Primary(), s.logs)
    && Known(s.Primary(), s.pending)
    && AttemptsInv(s.attempts, s.procs)
    && s.logs == LoggedRows(s.attempts, s.procs)
    && DeadRows(s.Primary()) == s.reported + s.unreported
  }

  ghost predicate ReplySound(t: Table, key: string, reply: Reply) {
    reply.Found? ==>
      reply.row.key == key && reply.id < |t| && t[reply.id].url == reply.row.url && t[reply.id].key == key
  }

  /** A row found in any earlier state is still there, under the same URL and key. */
  lemma ReadIsSound(s: Sys, key: string, seen: Option<nat>, fault: Fault)
    requires HistoryInv(s.history)
    ensures ReplySound(s.Primary(), key, Read(s, key, seen, fault))
  {
    var t := Seen(s, seen);
    assert Evolves(t, s.Primary());
  }

  lemma InsertKeepsRows(hash: Hash, t: Table, stamped: seq<Stamping>, row: Row, fault: Fault)
    requires RowsInv(hash, t, stamped) && OnProbe(hash, row) && row == NewRow(row.url, row.key)
    ensures RowsInv(hash, Insert(t, row, fault), stamped)
    ensures DeadRows(Insert(t, row, fault)) == DeadRows(t)
  {
    hide Find, DeadRows, LastStamp;
    LastStampUnused(stamped, |t|);
    DeadRowsInsert(t, row.url, row.key);
    var t' := Insert(t, row, fault);
    if t' == t + [row] {
      FreeKey(t, row.key);
      forall i | 0 <= i < |t'|
        ensures OnProbe(hash, t'[i]) && t'[i].lastUsed == LastStamp(stamped, i)
      {
        assert i < |t| ==> t'[i] == t[i] && OnProbe(hash, t[i]);
      }
    }
  }

  lemma FreeKey(t: Table, key: string)
    ensures Find(t, key).None? <==> forall i | 0 <= i < |t| :: !(t[i].key == key && t[i].Live())
  {
  }

  lemma StampKeepsRows(hash: Hash, t: Table, stamped: seq<Stamping>, id: Id, at: int)
    requires RowsInv(hash, t, stamped) && id < |t|
    ensures RowsInv(hash, Stamp(t, id, at), stamped + [Stamping(id, at)])
  {
    StampKeepsIndex(t, id, at);
    var t', more := Stamp(t, id, at), stamped + [Stamping(id, at)];
    assert more[..|more| - 1] == stamped;
    forall i | 0 <= i < |t|
      ensures OnProbe(hash, t'[i]) && t'[i].lastUsed == LastStamp(more, i)
    {
      assert OnProbe(hash, t[i]);
    }
  }

  lemma SweepKeepsRows(hash: Hash, t: Table, stamped: seq<Stamping>, cutoff: int, at: int)
    requires RowsInv(hash, t, stamped)
    ensures RowsInv(hash, Sweep(t, cutoff, at), stamped)
  {
    SweepKeepsIndex(t, cutoff, at);
    var t' := Sweep(t, cutoff, at);
    forall i | 0 <= i < |t|
      ensures OnProbe(hash, t'[i]) && t'[i].lastUsed == LastStamp(stamped, i)
    {
      assert OnProbe(hash, t[i]);
    }
  }

  lemma {:induction false} LastStampUnused(stamped: seq<Stamping>, id: Id)
    requires forall i | 0 <= i < |stamped| :: stamped[i].id < id
    ensures LastStamp(stamped, id) == ZERO_TIME
  {
    if stamped == [] {
    } else {
      LastStampUnused(stamped[..|stamped| - 1], id);
    }
  }

  lemma ProcsInvEvolves(hash: Hash, t: Table, t': Table, procs: map<Pid, Proc>)
    requires ProcsInv(hash, t, procs) && Evolves(t, t')
    ensures ProcsInv(hash, t', procs)
  {
    forall p | p in procs
      ensures PcInv(hash, t', procs[p].url, procs[p].pc)
    {
      assert PcInv(hash, t, procs[p].url, procs[p].pc);
    }
  }

  lemma HistoryEvolves(history: seq<Table>, t: Table)
    requires HistoryInv(history) && Evolves(Latest(history), t)
    ensures HistoryInv(history + [t])
  {
  }

  lemma {:induction false} LoggedRowsSame(attempts: seq<Attempt>, procs: map<Pid, Proc>, procs': map<Pid, Proc>)
    requires forall i | 0 <= i < |attempts| ::
      attempts[i].p in procs && attempts[i].p in procs' && procs'[attempts[i].p] == procs[attempts[i].p]
    ensures LoggedRows(attempts, procs') == LoggedRows(attempts, procs)
  {
    if attempts == [] {
    } else {
      LoggedRowsSame(attempts[..|attempts| - 1], procs, procs');
    }
  }

  /** A step that changes only the program counter of one call. */
  lemma SetKeepsInv(hash: Hash, s: Sys, p: Pid, pc: Pc)
    requires Inv(hash, s) && p in s.procs && !s.procs[p].pc.Done? && !pc.Done?
    requires PcInv(hash, s.Primary(), s.procs[p].url, pc)
    ensures Inv(hash, Set(s, p, pc))
  {
    var procs := Set(s, p, pc).procs;
    hide LogAttempts, LoggedRows, HistoryInv, RowsInv, DeadRows, Slot;
    assert ProcsInv(hash, s.Primary(), procs);
    assert AttemptsInv(s.attempts, procs);
    LoggedRowsSame(s.attempts, s.procs, procs);
  }

  /** A step that only moves the primary on to its next state. */
  lemma CommitKeepsInv(hash: Hash, s: Sys, s': Sys, t: Table)
    requires Inv(hash, s) && Evolves(s.Primary(), t) && RowsInv(hash, t, s'.stamped)
    requires s' == s.(history := s.history + [t], stamped := s'.stamped, pending := s'.pending,
                      reported := s'.reported, unreported := s'.unreported)
    requires Known(t, s'.pending)
    requires DeadRows(t) == s'.reported + s'.unreported
    ensures Inv(hash, s')
  {
    assert s'.Primary() == t;
    HistoryEvolves(s.history, t);
    ProcsInvEvolves(hash, s.Primary(), t, s.procs);
    assert Known(t, s'.logs);
  }

  lemma BeginKeepsInv(hash: Hash, s: Sys, p: Pid, url: string)
    requires Inv(hash, s)
    ensures Inv(hash, DoBegin(hash, s, p, url))
  {
    var s' := DoBegin(hash, s, p, url);
    hide LogAttempts, LoggedRows, HistoryInv, RowsInv, DeadRows;
    assert ProcsInv(hash, s.Primary(), s'.procs);
    assert AttemptsInv(s.attempts, s'.procs);
    LoggedRowsSame(s.attempts, s.procs, s'.procs);
  }

  lemma AfterLookupInv(hash: Hash, t: Table, url: string, pc: Pc, reply: Reply)
    requires pc.Lookup? && PcInv(hash, t, url, pc) && ReplySound(t, pc.key, reply)
    ensures PcInv(hash, t, url, AfterLookup(hash, url, pc.attempt, pc.key, reply))
    ensures !AfterLookup(hash, url, pc.attempt, pc.key, reply).Done?
  {
  }

  lemma LookupKeepsInv(hash: Hash, s: Sys, p: Pid, seen: Option<nat>, fault: Fault)
    requires Inv(hash, s)
    ensures Inv(hash, DoLookup(hash, s, p, seen, fault))
  {
    if p in s.procs && s.procs[p].pc.Lookup? {
      var Proc(url, pc) := s.procs[p];
      var reply := Read(s, pc.key, seen, fault);
      ReadIsSound(s, pc.key, seen, fault);
      AfterLookupInv(hash, s.Primary(), url, pc, reply);
      SetKeepsInv(hash, s, p, AfterLookup(hash, url, pc.attempt, pc.key, reply));
    }
  }

  lemma AfterCreateInv(hash: Hash, t: Table, url: string, key: string, fault: Fault)
    ensures PcInv(hash, Insert(t, NewRow(url, key), fault), url, AfterCreate(t, key, fault))
    ensures !AfterCreate(t, key, fault).Done?
    ensures Evolves(t, Insert(t, NewRow(url, key), fault))
  {
  }

  lemma CreateKeepsInv(hash: Hash, s: Sys, p: Pid, fault: Fault)
    requires Inv(hash, s)
    ensures Inv(hash, DoCreate(s, p, fault))
  {
    hide Slot, Find, LogAttempts, LoggedRows, DeadRows, UniqueLive, ActiveAgrees, LastStamp;
    if p in s.procs && s.procs[p].pc.Create? {
      var Proc(url, pc) := s.procs[p];
      var row := NewRow(url, pc.key);
      var t := Insert(s.Primary(), row, fault);
      PcOnProbe(hash, s.Primary(), url, pc);
      InsertKeepsRows(hash, s.Primary(), s.stamped, row, fault);
      AfterCreateInv(hash, s.Primary(), url, pc.key, fault);
      var mid := s.Commit(t);
      assert mid.Primary() == t && Known(t, s.pending);
      CommitKeepsInv(hash, s, mid, t);
      SetKeepsInv(hash, mid, p, AfterCreate(s.Primary(), pc.key, fault));
    }
  }

  lemma PcOnProbe(hash: Hash, t: Table, url: string, pc: Pc)
    requires pc.Create? && PcInv(hash, t, url, pc)
    ensures OnProbe(hash, NewRow(url, pc.key))
  {
    assert pc.key == Slot(hash, url, pc.attempt);
  }

  lemma LogKeepsInv(hash: Hash, s: Sys, p: Pid, fault: Fault)
    requires Inv(hash, s)
    ensures Inv(hash, DoLog(s, p, fault))
  {
    hide LogAttempts, LoggedRows, HistoryInv, RowsInv, DeadRows, Slot;
    if p in s.procs && s.procs[p].pc.Log? {
      var s' := DoLog(s, p, fault);
      assert PcInv(hash, s.Primary(), s.procs[p].url, s.procs[p].pc);
      LogAttemptSnoc(s.attempts, Attempt(p, fault != Lost), s.procs, s'.procs);
      assert AttemptsInv(s'.attempts, s'.procs);
      assert ProcsInv(hash, s.Primary(), s'.procs);
      assert Known(s.Primary(), s'.logs);
    }
  }

  lemma LogAttemptSnoc(attempts: seq<Attempt>, a: Attempt, procs: map<Pid, Proc>, procs': map<Pid, Proc>)
    requires AttemptsInv(attempts, procs)
    requires a.p in procs && procs[a.p].pc.Log? && a.p in procs' && procs'[a.p].pc.Done?
    requires procs' == procs[a.p := procs'[a.p]]
    ensures forall p :: LogAttempts(attempts + [a], p) == LogAttempts(attempts, p) + if p == a.p then 1 else 0
    ensures LoggedRows(attempts + [a], procs') ==
      LoggedRows(attempts, procs) + if a.stored then [procs'[a.p].pc.id] else []
  {
    var more := attempts + [a];
    assert more[..|more| - 1] == attempts && more[|more| - 1] == a;
    LoggedRowsSame(attempts, procs, procs');
  }

  lemma VisitKeepsInv(hash: Hash, s: Sys, key: string, seen: Option<nat>, fault: Fault)
    requires Inv(hash, s)
    ensures Inv(hash, DoVisit(s, key, seen, fault))
  {
    ReadIsSound(s, key, seen, fault);
    assert Known(s.Primary(), DoVisit(s, key, seen, fault).pending);
  }

  lemma StampKeepsInv(hash: Hash, s: Sys, k: nat, at: int, fault: Fault)
    requires Inv(hash, s)
    ensures Inv(hash, DoStamp(s, k, at, fault))
  {
    if k < |s.pending| {
      assert Known(s.Primary(), DoStamp(s, k, at, fault).pending);
      if fault != Lost {
        var id := s.pending[k];
        StampEvolves(s.Primary(), id, at);
        StampKeepsRows(hash, s.Primary(), s.stamped, id, at);
        DeadRowsStamp(s.Primary(), id, at);
        CommitKeepsInv(hash, s, DoStamp(s, k, at, fault), Stamp(s.Primary(), id, at));
      }
    }
  }

  lemma SweepKeepsInv(hash: Hash, s: Sys, cutoff: int, at: int, fault: Fault)
    requires Inv(hash, s)
    ensures Inv(hash, DoSweep(s, cutoff, at, fault))
  {
    if fault != Lost {
      SweepEvolves(s.Primary(), cutoff, at);
      SweepKeepsRows(hash, s.Primary(), s.stamped, cutoff, at);
      DeadRowsSweep(s.Primary(), cutoff, at);
      CommitKeepsInv(hash, s, DoSweep(s, cutoff, at, fault), Sweep(s.Primary(), cutoff, at));
    }
  }

  lemma NextKeepsInv(hash: Hash, s: Sys, a: Action)
    requires Inv(hash, s)
    ensures Inv(hash, Next(hash, s, a))
  {
    match a
    case Begin(p, url) => BeginKeepsInv(hash, s, p, url);
    case LookupStep(p, seen, fault) => LookupKeepsInv(hash, s, p, seen, fault);
    case CreateStep(p, fault) => CreateKeepsInv(hash, s, p, fault);
    case LogStep(p, fault) => LogKeepsInv(hash, s, p, fault);
    case Visit(key, seen, fault) => VisitKeepsInv(hash, s, key, seen, fault);
    case StampStep(k, at, fault) => StampKeepsInv(hash, s, k, at, fault);
    case SweepStep(cutoff, at, fault) => SweepKeepsInv(hash, s, cutoff, at, fault);
  }

  lemma {:induction false} RunKeepsInv(hash: Hash, s: Sys, trace: seq<Action>)
    requires Inv(hash, s)
    ensures Inv(hash, Run(hash, s, trace))
  {
    if trace == [] {
    } else {
      var n := |trace| - 1;
      RunKeepsInv(hash, s, trace[..n]);
      NextKeepsInv(hash, Run(hash, s, trace[..n]), trace[n]);
    }
  }

  lemma InitInv(hash: Hash)
    ensures Inv(hash, INIT)
  {
    assert INIT.Primary() == [];
  }

  lemma Reachable(hash: Hash, trace: seq<Action>)
    ensures Inv(hash, Run(hash, INIT, trace))
  {
    InitInv(hash);
    RunKeepsInv(hash, INIT, trace);
  }
}
