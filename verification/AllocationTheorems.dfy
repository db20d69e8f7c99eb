/** What holds in every run of the allocation protocol, cleanup included. */
module AllocationTheorems {
  import opened Prelude
  import opened UrlTable
  import opened ShortKeys
  import opened ShortenProtocol

  // ------------------------------------------------------------------ seven rows per URL

  function LiveRowsOf(t: Table, url: string): set<Id> {
    set i | 0 <= i < |t| && t[i].Live() && t[i].url == url
  }

  function KeysOf(t: Table, ids: set<Id>): set<string>
    requires forall i | i in ids :: i < |t|
  {
    set i | i in ids :: t[i].key
  }

  lemma {:induction false} DistinctKeys(t: Table, ids: set<Id>)
    requires UniqueLive(t)
    requires forall i | i in ids :: i < |t| && t[i].Live()
    ensures |KeysOf(t, ids)| == |ids|
    decreases |ids|
  {
    if ids == {} {
    } else {
      var i :| i in ids;
      DistinctKeys(t, ids - {i});
      assert forall j | j in ids - {i} :: t[j].key != t[i].key;
      assert KeysOf(t, ids) == KeysOf(t, ids - {i}) + {t[i].key};
    }
  }

  function Slots(hash: Hash, url: string, n: nat): set<string> {
    if n == 0 then {} else Slots(hash, url, n - 1) + {Slot(hash, url, n - 1)}
  }

  lemma {:induction false} SlotsAreAll(hash: Hash, url: string, n: nat)
    ensures |Slots(hash, url, n)| <= n
    ensures forall j | 0 <= j < n :: Slot(hash, url, j) in Slots(hash, url, n)
  {
    if n == 0 {
    } else {
      hide Slot;
      SlotsAreAll(hash, url, n - 1);
    }
  }

  lemma {:induction false} SubsetCard<T>(a: set<T>, b: set<T>)
    requires a <= b
    ensures |a| <= |b|
  {
    assert b == a + (b - a);
  }

  lemma AtMostSeven(hash: Hash, t: Table, url: string)
    requires UniqueLive(t) && forall i | 0 <= i < |t| :: OnProbe(hash, t[i])
    ensures |LiveRowsOf(t, url)| <= 7
  {
    var ids := LiveRowsOf(t, url);
    DistinctKeys(t, ids);
    SlotsAreAll(hash, url, 7);
    forall key | key in KeysOf(t, ids)
      ensures key in Slots(hash, url, 7)
    {
      var i :| i in ids && t[i].key == key;
      assert OnProbe(hash, t[i]);
    }
    SubsetCard(KeysOf(t, ids), Slots(hash, url, 7));
  }

  /** In every reachable state: live short keys are unique, is_active says exactly "not deleted", every
      row sits on its own URL's probe sequence, and a URL has at most seven live rows. */
  lemma TableOfEveryRun(hash: Hash, trace: seq<Action>, url: string)
    ensures var t := Run(hash, INIT, trace).Primary();
      && UniqueLive(t)
      && ActiveAgrees(t)
      && (forall i | 0 <= i < |t| :: OnProbe(hash, t[i]))
      && |LiveRowsOf(t, url)| <= 7
  {
    Reachable(hash, trace);
    AtMostSeven(hash, Run(hash, INIT, trace).Primary(), url);
  }

  // ------------------------------------------------------------------ logs and sweep counts

  /** In every reachable state: every request log and every running stamp goroutine names a row of the
      primary, so the foreign key never refuses a log; a call that returned a key attempted exactly one
      log and any other call none; the request log holds, in order, exactly the rows returned by the
      calls whose insert reached the database; and the rows reported by sweeps, with those of sweeps
      whose reply was lost, are exactly the deleted rows. */
  lemma BooksOfEveryRun(hash: Hash, trace: seq<Action>, p: Pid)
    ensures var s := Run(hash, INIT, trace);
      && Known(s.Primary(), s.logs)
      && Known(s.Primary(), s.pending)
      && LogAttempts(s.attempts, p) == (if p in s.procs && s.procs[p].pc.Done? then 1 else 0)
      && s.logs == LoggedRows(s.attempts, s.procs)
      && s.reported + s.unreported == DeadRows(s.Primary())
  {
    hide Run, LogAttempts, LoggedRows, DeadRows;
    Reachable(hash, trace);
  }

  /** No insert and no stamp reaches the table. */
  predicate NoWrites(trace: seq<Action>) {
    forall i | 0 <= i < |trace| :: trace[i].CreateStep? || trace[i].StampStep? ==> trace[i].fault == Lost
  }

  predicate Executed(a: Action) {
    a.SweepStep? && a.fault != Lost
  }

  /** The sweeps of a trace that reached the table, whether or not their reply arrived. */
  function Sweeps(trace: seq<Action>): seq<Tick>
    decreases |trace|
  {
    if trace == [] then []
    else (if Executed(trace[0]) then [Tick(trace[0].cutoff, trace[0].at)] else []) + Sweeps(trace[1..])
  }

  /** Overlapping leaders are harmless: in any run in which no insert or stamp reaches the table, whatever
      calls, redirects, logs and sweeps are under way and however they fail, the sweeps together leave the
      same rows live as one sweep at the largest cutoff would, and delete as many rows. */
  lemma OverlappingSweepsMerge(hash: Hash, s: Sys, trace: seq<Action>, at: int)
    requires NoWrites(trace) && Sweeps(trace) != []
    ensures var t, s', cutoff := s.Primary(), Run(hash, s, trace), LargestCutoff(Sweeps(trace));
      && |s'.Primary()| == |t|
      && (forall i | 0 <= i < |t| :: s'.Primary()[i].Live() <==> Sweep(t, cutoff, at)[i].Live())
      && s'.reported + s'.unreported == s.reported + s.unreported + StaleRows(t, cutoff)
  {
    hide Run;
    QuietRunSweeps(hash, s, trace);
    SweepsMerge(s.Primary(), Sweeps(trace), at);
  }

  lemma {:induction false} QuietRunSweeps(hash: Hash, s: Sys, trace: seq<Action>)
    requires NoWrites(trace)
    ensures var s', ticks := Run(hash, s, trace), Sweeps(trace);
      && s'.Primary() == SweepAll(s.Primary(), ticks)
      && s'.reported + s'.unreported == s.reported + s.unreported + ReportedBy(s.Primary(), ticks)
    decreases |trace|
  {
    hide Run, Next;
    RunNone(hash, s);
    if trace == [] {
    } else {
      var a, rest := trace[0], trace[1..];
      var none: seq<Action> := [];
      RunSnoc(hash, s, none, a);
      RunConcat(hash, s, none + [a], rest);
      assert trace == (none + [a]) + rest;
      assert [] + Sweeps(rest) == Sweeps(rest);
      QuietStep(hash, s, a);
      QuietRunSweeps(hash, Next(hash, s, a), rest);
      assert Executed(a) ==> Sweeps(trace)[1..] == Sweeps(rest);
    }
  }

  lemma QuietStep(hash: Hash, s: Sys, a: Action)
    requires NoWrites([a])
    ensures var s', n := Next(hash, s, a), s.reported + s.unreported;
      if Executed(a) then
        s'.Primary() == Sweep(s.Primary(), a.cutoff, a.at)
        && s'.reported + s'.unreported == n + StaleRows(s.Primary(), a.cutoff)
      else s'.Primary() == s.Primary() && s'.reported + s'.unreported == n
  {
    hide StaleRows, Find, Slot;
    assert [a][0] == a;
  }

  lemma RunNone(hash: Hash, s: Sys)
    ensures Run(hash, s, []) == s
  {
  }

  // ------------------------------------------------------------------ redirects

  lemma NextExtendsHistory(hash: Hash, s: Sys, a: Action)
    ensures s.history <= Next(hash, s, a).history
  {
  }

  lemma {:induction false} RunExtendsHistory(hash: Hash, s: Sys, trace: seq<Action>)
    ensures s.history <= Run(hash, s, trace).history
  {
    if trace == [] {
    } else {
      var n := |trace| - 1;
      RunExtendsHistory(hash, s, trace[..n]);
      NextExtendsHistory(hash, Run(hash, s, trace[..n]), trace[n]);
    }
  }

  /** Along every run rows keep their place, URL and key, and a deleted row never comes back. */
  lemma RunEvolves(hash: Hash, s: Sys, trace: seq<Action>)
    requires Inv(hash, s)
    ensures Evolves(s.Primary(), Run(hash, s, trace).Primary())
  {
    RunKeepsInv(hash, s, trace);
    RunExtendsHistory(hash, s, trace);
    var history := Run(hash, s, trace).history;
    assert history[|s.history| - 1] == s.Primary();
  }

  lemma NextHistory(hash: Hash, s: Sys, a: Action)
    ensures var s' := Next(hash, s, a); s'.history == s.history || s'.history == s.history + [s'.Primary()]
  {
    hide Find, Slot, StaleRows;
  }

  /** Every state a replica may serve had unique live keys. */
  lemma {:induction false} ViewsAreUnique(hash: Hash, trace: seq<Action>, i: nat)
    requires i < |Run(hash, INIT, trace).history|
    ensures UniqueLive(Run(hash, INIT, trace).history[i])
  {
    hide Next;
    Reachable(hash, trace);
    if trace == [] {
    } else {
      var init, a := trace[..|trace| - 1], trace[|trace| - 1];
      NextHistory(hash, Run(hash, INIT, init), a);
      if i < |Run(hash, INIT, init).history| {
        ViewsAreUnique(hash, init, i);
      }
    }
  }

  lemma SeenIsUnique(hash: Hash, trace: seq<Action>, seen: Option<nat>)
    ensures var s := Run(hash, INIT, trace);
      UniqueLive(Seen(s, seen)) && Evolves(Seen(s, seen), s.Primary())
  {
    hide Run;
    Reachable(hash, trace);
    var s := Run(hash, INIT, trace);
    if seen.Some? && seen.value < |s.history| {
      ViewsAreUnique(hash, trace, seen.value);
    }
  }

  /** Once a ShortenURL call for a URL has returned a key, then at every later point of every run a redirect
      of that key leads to that URL and starts one stamp of its row, if it is served by the primary or by a
      replica whose state has the row and has it live. */
  lemma RedirectStaysRight(
      hash: Hash, before: seq<Action>, after: seq<Action>, p: Pid, seen: Option<nat>)
    requires p in Run(hash, INIT, before).procs && Run(hash, INIT, before).procs[p].pc.Done?
    ensures var Proc(url, Done(id, key)) := Run(hash, INIT, before).procs[p];
      var s := Run(hash, INIT, before + after);
      var view := Seen(s, seen);
      && id < |s.Primary()|
      && (id < |view| && view[id].Live() ==>
            && Read(s, key, seen, NoFault) == Found(id, view[id]) && view[id].url == url
            && Next(hash, s, Visit(key, seen, NoFault)) == s.(pending := s.pending + [id]))
  {
    var s0 := Run(hash, INIT, before);
    hide Run, Slot, Find;
    Reachable(hash, before);
    RunConcat(hash, INIT, before, after);
    RunEvolves(hash, s0, after);
    var s := Run(hash, INIT, before + after);
    SeenIsUnique(hash, before + after, seen);
    assert PcInv(hash, s0.Primary(), s0.procs[p].url, s0.procs[p].pc);
    var id, view := s0.procs[p].pc.id, Seen(s, seen);
    if id < |view| && view[id].Live() {
      FindLive(view, id);
    }
  }

  /** A redirect whose lookup fails starts no stamp and changes nothing. */
  lemma FaultedRedirectIsHarmless(hash: Hash, s: Sys, key: string, seen: Option<nat>, fault: Fault)
    requires fault != NoFault
    ensures Next(hash, s, Visit(key, seen, fault)) == s
  {
  }

  // ------------------------------------------------------------------ who survives a sweep

  lemma SweepOfRow(hash: Hash, s: Sys, id: Id, cutoff: int, at: int)
    requires RowsInv(hash, s.Primary(), s.stamped) && id < |s.Primary()|
    ensures DoSweep(s, cutoff, at, NoFault).Primary()[id].Live() <==>
      s.Primary()[id].Live() && LastStamp(s.stamped, id) >= cutoff
  {
    hide LastStamp, StaleRows, OnProbe;
  }

  /** The sweep of a reachable state keeps a live row exactly when the last stamp executed for it is not
      older than the cutoff. A row that was never stamped counts as used at the zero time, however
      recently it was created. */
  lemma SweepKeepsIff(hash: Hash, trace: seq<Action>, id: Id, cutoff: int, at: int)
    requires id < |Run(hash, INIT, trace).Primary()|
    ensures var s := Run(hash, INIT, trace);
      var s' := Next(hash, s, SweepStep(cutoff, at, NoFault));
      s'.Primary()[id].Live() <==> s.Primary()[id].Live() && LastStamp(s.stamped, id) >= cutoff
  {
    hide Run, LastStamp, DoSweep, LogAttempts, LoggedRows, DeadRows, OnProbe;
    Reachable(hash, trace);
    SweepOfRow(hash, Run(hash, INIT, trace), id, cutoff, at);
  }

  predicate GentleTo(a: Action, t: int) {
    && (a.StampStep? ==> a.at >= t)
    && (a.SweepStep? ==> a.cutoff <= t)
  }

  /** A live row last stamped at t or later survives any further run in which no older stamp is executed
      and no cutoff exceeds t. */
  lemma {:induction false} StampedRowSurvives(hash: Hash, s: Sys, trace: seq<Action>, id: Id, t: int)
    requires Inv(hash, s)
    requires id < |s.Primary()| && s.Primary()[id].Live() && s.Primary()[id].lastUsed >= t
    requires forall i | 0 <= i < |trace| :: GentleTo(trace[i], t)
    ensures var t' := Run(hash, s, trace).Primary();
      id < |t'| && t'[id].Live() && t'[id].lastUsed >= t
  {
    if trace == [] {
    } else {
      var n := |trace| - 1;
      var s1 := Run(hash, s, trace[..n]);
      StampedRowSurvives(hash, s, trace[..n], id, t);
      RunKeepsInv(hash, s, trace[..n]);
      NextKeepsRow(hash, s1, trace[n], id, t);
    }
  }

  lemma NextKeepsRow(hash: Hash, s: Sys, a: Action, id: Id, t: int)
    requires id < |s.Primary()| && s.Primary()[id].Live() && s.Primary()[id].lastUsed >= t && GentleTo(a, t)
    ensures var t' := Next(hash, s, a).Primary();
      id < |t'| && t'[id].Live() && t'[id].lastUsed >= t
  {
  }
}
