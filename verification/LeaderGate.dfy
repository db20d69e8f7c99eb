/** `Locker.Run` in the form of the program: take a connection, try the lock, run fn, and in the deferred
    calls unlock and release. Other Runs act, and sessions die, between any two of its statements. */
module LeaderGate {
  import opened Prelude
  import opened LeaderLock

  datatype Env = Env(others: seq<Action>, fault: Fault)

  predicate Mine(a: Action, r: Rid) {
    match a
    case Connect(_, _) => false
    case Fetch(q, _, _) => q == r
    case TryLock(q, _) => q == r
    case FnReturns(q) => q == r
    case Unlock(q, _) => q == r
    case Release(q) => q == r
    case Die(_) => false
  }

  function Foreign(actions: seq<Action>, r: Rid): seq<Action> {
    if actions == [] then []
    else
      var rest := Foreign(actions[..|actions| - 1], r);
      if Mine(actions[|actions| - 1], r) then rest else rest + [actions[|actions| - 1]]
  }

  lemma {:induction false} ForeignLeavesRun(s: Sys, actions: seq<Action>, r: Rid)
    ensures var s' := Run(s, Foreign(actions, r));
      (r in s'.runs <==> r in s.runs) && (r in s.runs ==> s'.runs[r] == s.runs[r])
  {
    hide Next;
    if actions == [] {
    } else {
      var init, a := actions[..|actions| - 1], actions[|actions| - 1];
      ForeignLeavesRun(s, init, r);
      if !Mine(a, r) {
        RunSnoc(s, Foreign(init, r), a);
        NextLeavesRun(Run(s, Foreign(init, r)), a, r);
      }
    }
  }

  lemma NextLeavesRun(s: Sys, a: Action, r: Rid)
    requires !Mine(a, r)
    ensures var s' := Next(s, a);
      (r in s'.runs <==> r in s.runs) && (r in s.runs ==> s'.runs[r] == s.runs[r])
  {
  }

  /** Skipped is the nil returned by a loser; `Ran` carries what fn returned. */
  datatype Outcome = NoConnection | TryFailed | Skipped | Ran(fnError: Option<string>)

  predicate Available(s: Sys, sid: Sid) {
    sid in s.sessions && !s.Busy(sid)
  }

  class Postgres {
    var sessions: map<Sid, Session>
    var locks: Locks
    var runs: map<Rid, RunCall>
    var leaks: map<(Sid, Key), nat>
    var fnCalls: nat
    ghost var trace: seq<Action>

    function View(): Sys
      reads this
    {
      Sys(sessions, locks, runs, leaks, fnCalls)
    }

    ghost predicate Valid()
      reads this
    {
      View() == Run(INIT, trace)
    }

    constructor ()
      ensures Valid() && View() == INIT
    {
      sessions, locks, runs, leaks, fnCalls, trace := map[], map[], map[], map[], 0, [];
    }

    ghost method Note(before: Sys, a: Action)
      requires before == Run(INIT, trace) && View() == Next(before, a)
      modifies this`trace
      ensures Valid() && trace == old(trace) + [a]
    {
      RunSnoc(INIT, trace, a);
      trace := trace + [a];
    }

    method Interfere(r: Rid, others: seq<Action>)
      requires Valid()
      modifies this
      ensures Valid() && old(trace) <= trace
      ensures r in runs <==> r in old(runs)
      ensures r in runs ==> runs[r] == old(runs)[r]
      ensures others == [] ==> View() == old(View())
    {
      hide Run;
      ForeignLeavesRun(View(), others, r);
      RunNothing(View());
      RunConcat(INIT, trace, Foreign(others, r));
      var s := Run(View(), Foreign(others, r));
      sessions, locks, runs, leaks, fnCalls := s.sessions, s.locks, s.runs, s.leaks, s.fnCalls;
      trace := trace + Foreign(others, r);
    }

    /** `pool.Acquire`: hand out a connection nobody is using. */
    method Acquire(r: Rid, key: Key, sid: Sid, env: Env) returns (ok: bool)
      requires Valid() && r !in runs
      modifies this
      ensures Valid() && old(trace) <= trace
      ensures ok ==> r in runs && runs[r] == RunCall(key, sid, Fetched)
      ensures !ok ==> r !in runs
      ensures ok ==> env.fault == NoFault
      ensures env.others == [] ==> ok == (env.fault == NoFault && Available(old(View()), sid))
      ensures env.others == [] ==>
        sessions == old(sessions) && View() == if ok then DoFetch(old(View()), r, key, sid) else old(View())
    {
      hide Run;
      Interfere(r, env.others);
      ghost var before := View();
      ok := env.fault == NoFault && sid in sessions && !View().Busy(sid);
      if ok {
        runs := runs[r := RunCall(key, sid, Fetched)];
        Note(before, Fetch(r, key, sid));
      }
    }

    method Try(r: Rid, env: Env) returns (err: bool, got: bool)
      requires Valid() && r in runs && runs[r].stage == Fetched
      modifies this
      ensures Valid() && old(trace) <= trace
      ensures r in runs && runs[r] == old(runs[r]).(stage := if got then Executing else Leaving)
      ensures got ==> !err
      ensures !err ==> env.fault == NoFault
      ensures env.others == [] ==>
        (err <==> env.fault != NoFault || !old(View()).Alive(old(runs[r].sid)))
      ensures env.others == [] ==> View() == DoTryLock(old(View()), r, env.fault)
    {
      hide Run;
      Interfere(r, env.others);
      ghost var before := View();
      var RunCall(key, sid, _) := runs[r];
      if !View().Alive(sid) || env.fault == Lost {
        err, got := true, false;
      } else if CanTake(locks, sid, key) {
        locks := Taken(locks, sid, key);
        if env.fault == Ambiguous {
          err, got := true, false;
          leaks := leaks[(sid, key) := View().Leaks(sid, key) + 1];
        } else {
          err, got := false, true;
          fnCalls := fnCalls + 1;
        }
      } else {
        err, got := env.fault == Ambiguous, false;
      }
      runs := runs[r := RunCall(key, sid, if got then Executing else Leaving)];
      Note(before, TryLock(r, env.fault));
    }

    method LeaveFn(r: Rid, env: Env)
      requires Valid() && r in runs && runs[r].stage == Executing
      modifies this
      ensures Valid() && old(trace) <= trace
      ensures r in runs && runs[r] == old(runs[r]).(stage := Unlocking)
      ensures env.others == [] ==> View() == DoFnReturns(old(View()), r)
    {
      hide Run;
      Interfere(r, env.others);
      ghost var before := View();
      runs := runs[r := runs[r].(stage := Unlocking)];
      Note(before, FnReturns(r));
    }

    method GiveBack(r: Rid, env: Env)
      requires Valid() && r in runs && runs[r].stage == Unlocking
      modifies this
      ensures Valid() && old(trace) <= trace
      ensures r in runs && runs[r] == old(runs[r]).(stage := Leaving)
      ensures env.others == [] ==> View() == DoUnlock(old(View()), r, env.fault)
    {
      hide Run;
      Interfere(r, env.others);
      ghost var before := View();
      var RunCall(key, sid, _) := runs[r];
      if View().Alive(sid) {
        if env.fault == Lost {
          leaks := leaks[(sid, key) := View().Leaks(sid, key) + 1];
        } else {
          locks := GivenBack(locks, sid, key);
        }
      }
      runs := runs[r := RunCall(key, sid, Leaving)];
      Note(before, Unlock(r, env.fault));
    }

    method Return(r: Rid)
      requires Valid() && r in runs && runs[r].stage == Leaving
      modifies this
      ensures Valid() && old(trace) <= trace
      ensures r !in runs && View() == DoRelease(old(View()), r)
    {
      hide Run;
      ghost var before := View();
      runs := runs - {r};
      Note(before, Release(r));
    }
  }

  predicate Undisturbed(env: seq<Env>) {
    forall i | 0 <= i < |env| :: env[i].others == []
  }

  /** What an undisturbed Run does on session `sid` when acquire, try and unlock meet the given faults. */
  ghost predicate Does(s: Sys, s': Sys, key: Key, sid: Sid, faults: seq<Fault>, res: Outcome)
    requires |faults| == 3
  {
    var held := s.locks[key := Hold(sid, HoldCount(s.locks, sid, key) + 1)];
    var leaked := s.leaks[(sid, key) := s.Leaks(sid, key) + 1];
    && s'.sessions == s.sessions && s'.runs == s.runs
    && s'.fnCalls == s.fnCalls + (if res.Ran? then 1 else 0)
    && if faults[0] != NoFault || sid !in s.sessions || s.Busy(sid) then
         res == NoConnection && s'.locks == s.locks && s'.leaks == s.leaks
       else if !s.Alive(sid) || faults[1] == Lost then
         res == TryFailed && s'.locks == s.locks && s'.leaks == s.leaks
       else if key in s.locks && s.locks[key].sid != sid then
         res == (if faults[1] == NoFault then Skipped else TryFailed) && s'.locks == s.locks && s'.leaks == s.leaks
       else if faults[1] == Ambiguous then
         res == TryFailed && s'.locks == held && s'.leaks == leaked
       else
         res.Ran?
         && s'.locks == (if faults[2] == Lost then held else s.locks)
         && s'.leaks == if faults[2] == Lost then leaked else s.leaks
  }

  /** The try of an undisturbed Run that got its connection. */
  function Tried(s: Sys, r: Rid, key: Key, sid: Sid, faults: seq<Fault>): Sys
    requires |faults| == 3
  {
    DoTryLock(DoFetch(s, r, key, sid), r, faults[1])
  }

  predicate Entered(s: Sys, r: Rid) {
    r in s.runs && s.runs[r].stage == Executing
  }

  /** The statements of an undisturbed Run, one after the other. */
  function Course(s: Sys, r: Rid, key: Key, sid: Sid, faults: seq<Fault>): Sys
    requires |faults| == 3
  {
    var tried := Tried(s, r, key, sid, faults);
    if faults[0] != NoFault || !Available(s, sid) then s
    else if Entered(tried, r) then DoRelease(DoUnlock(DoFnReturns(tried, r), r, faults[2]), r)
    else DoRelease(tried, r)
  }

  lemma TriedIs(s: Sys, r: Rid, key: Key, sid: Sid, faults: seq<Fault>)
    requires |faults| == 3 && r !in s.runs && Available(s, sid)
    ensures var tried := Tried(s, r, key, sid, faults);
      var takes := s.Alive(sid) && faults[1] != Lost && CanTake(s.locks, sid, key);
      && tried.runs == s.runs[r := RunCall(key, sid, if takes && faults[1] == NoFault then Executing else Leaving)]
      && tried.sessions == s.sessions
      && tried.locks == (if takes then Taken(s.locks, sid, key) else s.locks)
      && tried.leaks ==
           (if takes && faults[1] == Ambiguous then s.leaks[(sid, key) := s.Leaks(sid, key) + 1] else s.leaks)
      && tried.fnCalls == s.fnCalls + if takes && faults[1] == NoFault then 1 else 0
  {
    hide Taken;
  }

  /** From fn to the release, on a live session. */
  lemma FinishIs(s: Sys, r: Rid, unlock: Fault)
    requires Entered(s, r) && s.Alive(s.runs[r].sid)
    ensures var RunCall(key, sid, _) := s.runs[r];
      var s' := DoRelease(DoUnlock(DoFnReturns(s, r), r, unlock), r);
      && s'.runs == s.runs - {r} && s'.sessions == s.sessions && s'.fnCalls == s.fnCalls
      && s'.locks == (if unlock == Lost then s.locks else GivenBack(s.locks, sid, key))
      && s'.leaks == if unlock == Lost then s.leaks[(sid, key) := s.Leaks(sid, key) + 1] else s.leaks
  {
    hide GivenBack;
  }

  lemma LeaveIs(s: Sys, r: Rid)
    requires r in s.runs && s.runs[r].stage == Leaving
    ensures DoRelease(s, r) == s.(runs := s.runs - {r})
  {
  }

  lemma CourseDoes(s: Sys, r: Rid, key: Key, sid: Sid, faults: seq<Fault>, res: Outcome)
    requires |faults| == 3 && r !in s.runs && HoldersLive(s)
    requires res.NoConnection? <==> faults[0] != NoFault || !Available(s, sid)
    requires Available(s, sid) && faults[0] == NoFault ==>
      && (res.Ran? <==> Entered(Tried(s, r, key, sid, faults), r))
      && (res.TryFailed? <==> !res.Ran? && (faults[1] != NoFault || !s.Alive(sid)))
    ensures Does(s, Course(s, r, key, sid, faults), key, sid, faults, res)
  {
    if Available(s, sid) {
      TriedIs(s, r, key, sid, faults);
      TakenAndBack(s.locks, sid, key);
      var tried := Tried(s, r, key, sid, faults);
      assert tried.runs - {r} == s.runs;
      if Entered(tried, r) {
        FinishIs(tried, r, faults[2]);
      } else {
        LeaveIs(tried, r);
      }
    }
    hide Tried, GivenBack, DoRelease, DoUnlock, DoFnReturns, HoldersLive;
  }

  lemma TakenAndBack(locks: Locks, sid: Sid, key: Key)
    requires key in locks ==> locks[key].count >= 1
    ensures CanTake(locks, sid, key) ==> GivenBack(Taken(locks, sid, key), sid, key) == locks
  {
  }

  /** In particular a faultless Run on a live session of its own runs fn exactly when the lock is free or its
      session's, and leaves every lock as it was. */
  lemma QuietRunIff(s: Sys, s': Sys, key: Key, sid: Sid, res: Outcome)
    requires Does(s, s', key, sid, [NoFault, NoFault, NoFault], res) && s.Alive(sid) && !s.Busy(sid)
    ensures res.Ran? <==> CanTake(s.locks, sid, key)
    ensures res.Ran? || res.Skipped?
    ensures s'.locks == s.locks && s'.leaks == s.leaks && s'.fnCalls == s.fnCalls + if res.Ran? then 1 else 0
  {
  }

  class Locker {
    const pg: Postgres

    constructor (pg: Postgres)
      ensures this.pg == pg
    {
      this.pg := pg;
    }

    /** Run. Whatever happens around it, it takes part in a run of the lock protocol and has given its
        connection back when it returns; it reports what fn returned if it ran fn, an error if it got no
        connection or no answer to its try, and nothing if another session had the lock. When nobody else
        acts, what it returns, the lock and the calls of fn are determined by the faults it meets. */
    method Run(r: Rid, key: Key, sid: Sid, fnError: Option<string>, env: seq<Env>) returns (res: Outcome)
      requires pg.Valid() && r !in pg.runs && |env| == 4
      modifies pg
      ensures pg.Valid() && old(pg.trace) <= pg.trace
      ensures r !in pg.runs
      ensures res.Ran? ==> res.fnError == fnError
      ensures env[0].fault != NoFault ==> res == NoConnection
      ensures res.Skipped? || res.Ran? ==> env[0].fault == NoFault && env[1].fault == NoFault
      ensures Undisturbed(env) ==>
        Does(old(pg.View()), pg.View(), key, sid, [env[0].fault, env[1].fault, env[3].fault], res)
    {
      hide LeaderLock.Run, DoFetch, DoTryLock, DoFnReturns, DoUnlock, DoRelease;
      ghost var s0, faults := pg.View(), [env[0].fault, env[1].fault, env[3].fault];
      WellFormed();
      var ok := pg.Acquire(r, key, sid, env[0]);
      if !ok {
        if Undisturbed(env) {
          CourseDoes(s0, r, key, sid, faults, NoConnection);
        }
        return NoConnection;
      }
      var err, got := pg.Try(r, env[1]);
      if !got {
        pg.Return(r);
        if Undisturbed(env) {
          CourseDoes(s0, r, key, sid, faults, if err then TryFailed else Skipped);
        }
        return if err then TryFailed else Skipped;
      }
      pg.LeaveFn(r, env[2]);
      pg.GiveBack(r, env[3]);
      pg.Return(r);
      res := Ran(fnError);
      if Undisturbed(env) {
        CourseDoes(s0, r, key, sid, faults, res);
      }
    }

    lemma WellFormed()
      requires pg.Valid()
      ensures HoldersLive(pg.View())
    {
      Reachable(pg.trace);
    }
  }
}
