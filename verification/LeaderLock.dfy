/** Single-leader gating with Postgres advisory locks.

    A lock belongs to a session, that is, to one pooled connection, and is re-entrant: the session that
    holds it may take it again and must give it back as often. Any replica may start a Run at any time;
    each Run takes a connection nobody else is using, tries the lock, runs fn, unlocks and gives the
    connection back. Every statement may fail with or without effect, and a session may die at any
    moment, which frees its locks. Actions that are not enabled change nothing. */
module LeaderLock {
  import opened Prelude

  type Sid = nat   // a session
  type Rid = nat   // a Run call
  type Key = int

  datatype Session = Session(replica: nat, alive: bool)

  datatype Hold = Hold(sid: Sid, count: nat)

  type Locks = map<Key, Hold>

  /** `Fetched` has a connection, `Executing` is inside fn, `Unlocking` has left fn and not yet
      unlocked, `Leaving` has only to release its connection. */
  datatype Stage = Fetched | Executing | Unlocking | Leaving

  datatype RunCall = RunCall(key: Key, sid: Sid, stage: Stage)

  /** `leaks` counts, for a session and key, the times the session took the lock for good: a failed
      unlock, or a try that took the lock but was reported as an error. `fnCalls` counts calls of fn. */
  datatype Sys = Sys(
    sessions: map<Sid, Session>,
    locks: Locks,
    runs: map<Rid, RunCall>,
    leaks: map<(Sid, Key), nat>,
    fnCalls: nat)
  {
    predicate Alive(sid: Sid) {
      sid in sessions && sessions[sid].alive
    }

    function Leaks(sid: Sid, key: Key): nat {
      if (sid, key) in leaks then leaks[(sid, key)] else 0
    }

    predicate Busy(sid: Sid) {
      exists r | r in runs :: runs[r].sid == sid
    }
  }

  const INIT: Sys := Sys(map[], map[], map[], map[], 0)

  datatype Action =
    | Connect(sid: Sid, replica: nat)
    | Fetch(r: Rid, key: Key, sid: Sid)
    | TryLock(r: Rid, fault: Fault)
    | FnReturns(r: Rid)
    | Unlock(r: Rid, fault: Fault)
    | Release(r: Rid)
    | Die(sid: Sid)

  /** How often a session holds a lock. */
  function HoldCount(locks: Locks, sid: Sid, key: Key): nat {
    if key in locks && locks[key].sid == sid then locks[key].count else 0
  }

  predicate CanTake(locks: Locks, sid: Sid, key: Key) {
    key in locks ==> locks[key].sid == sid
  }

  /** `pg_try_advisory_lock` when it succeeds. */
  function Taken(locks: Locks, sid: Sid, key: Key): Locks {
    locks[key := Hold(sid, HoldCount(locks, sid, key) + 1)]
  }

  /** `pg_advisory_unlock`: one level back, and nothing for a session that does not hold the lock. */
  function GivenBack(locks: Locks, sid: Sid, key: Key): Locks {
    var n := HoldCount(locks, sid, key);
    if n == 0 then locks
    else if n == 1 then locks - {key}
    else locks[key := Hold(sid, n - 1)]
  }

  /** The locks of a session that ends. */
  function Freed(locks: Locks, sid: Sid): Locks {
    map key | key in locks && locks[key].sid != sid :: locks[key]
  }

  function SetStage(s: Sys, r: Rid, stage: Stage): Sys
    requires r in s.runs
  {
    s.(runs := s.runs[r := s.runs[r].(stage := stage)])
  }

  function Leak(s: Sys, sid: Sid, key: Key): Sys {
    s.(leaks := s.leaks[(sid, key) := s.Leaks(sid, key) + 1])
  }

  function DoFetch(s: Sys, r: Rid, key: Key, sid: Sid): Sys {
    if r in s.runs || sid !in s.sessions || s.Busy(sid) then s
    else s.(runs := s.runs[r := RunCall(key, sid, Fetched)])
  }

  /** The try: on an error Run returns without unlocking, even if the server took the lock. */
  function DoTryLock(s: Sys, r: Rid, fault: Fault): Sys {
    if r in s.runs && s.runs[r].stage == Fetched then
      var RunCall(key, sid, _) := s.runs[r];
      if !s.Alive(sid) || fault == Lost || !CanTake(s.locks, sid, key) then SetStage(s, r, Leaving)
      else
        var taken := s.(locks := Taken(s.locks, sid, key));
        if fault == Ambiguous then SetStage(Leak(taken, sid, key), r, Leaving)
        else SetStage(taken, r, Executing).(fnCalls := s.fnCalls + 1)
    else s
  }

  function DoFnReturns(s: Sys, r: Rid): Sys {
    if r in s.runs && s.runs[r].stage == Executing then SetStage(s, r, Unlocking) else s
  }

  function DoUnlock(s: Sys, r: Rid, fault: Fault): Sys {
    if r in s.runs && s.runs[r].stage == Unlocking then
      var RunCall(key, sid, _) := s.runs[r];
      if !s.Alive(sid) then SetStage(s, r, Leaving)
      else if fault == Lost then SetStage(Leak(s, sid, key), r, Leaving)
      else SetStage(s.(locks := GivenBack(s.locks, sid, key)), r, Leaving)
    else s
  }

  function DoRelease(s: Sys, r: Rid): Sys {
    if r in s.runs && s.runs[r].stage == Leaving then s.(runs := s.runs - {r}) else s
  }

  function DoDie(s: Sys, sid: Sid): Sys {
    if s.Alive(sid) then
      s.(sessions := s.sessions[sid := s.sessions[sid].(alive := false)], locks := Freed(s.locks, sid))
    else s
  }

  function Next(s: Sys, a: Action): Sys {
    match a
    case Connect(sid, replica) =>
      if sid in s.sessions then s else s.(sessions := s.sessions[sid := Session(replica, true)])
    case Fetch(r, key, sid) => DoFetch(s, r, key, sid)
    case TryLock(r, fault) => DoTryLock(s, r, fault)
    case FnReturns(r) => DoFnReturns(s, r)
    case Unlock(r, fault) => DoUnlock(s, r, fault)
    case Release(r) => DoRelease(s, r)
    case Die(sid) => DoDie(s, sid)
  }

  function Run(s: Sys, trace: seq<Action>): Sys {
    if trace == [] then s else Next(Run(s, trace[..|trace| - 1]), trace[|trace| - 1])
  }

  lemma RunSnoc(s: Sys, trace: seq<Action>, a: Action)
    ensures Run(s, trace + [a]) == Next(Run(s, trace), a)
  {
    assert (trace + [a])[..|trace|] == trace;
  }

  lemma {:induction false} RunConcat(s: Sys, first: seq<Action>, second: seq<Action>)
    ensures Run(s, first + second) == Run(Run(s, first), second)
    decreases |second|
  {
    if second == [] {
      assert first + second == first;
    } else {
      var n := |second| - 1;
      RunConcat(s, first, second[..n]);
      assert (first + second)[..|first + second| - 1] == first + second[..n];
    }
  }

  // ------------------------------------------------------------------ the invariant

  predicate Inside(call: RunCall) {
    call.stage == Executing || call.stage == Unlocking
  }

  predicate Active(runs: map<Rid, RunCall>, sid: Sid, key: Key) {
    exists r | r in runs :: runs[r].sid == sid && runs[r].key == key && Inside(runs[r])
  }

  /** No connection is used by two Runs at once. */
  ghost predicate Exclusive(runs: map<Rid, RunCall>) {
    forall r, r' | r in runs && r' in runs && runs[r].sid == runs[r'].sid :: r == r'
  }

  ghost predicate HoldersLive(s: Sys) {
    forall key | key in s.locks :: s.locks[key].count >= 1 && s.Alive(s.locks[key].sid)
  }

  /** What a live session holds is what the Run on it holds plus what was leaked on it. */
  ghost predicate Balanced(s: Sys, sid: Sid, key: Key) {
    HoldCount(s.locks, sid, key) == s.Leaks(sid, key) + if Active(s.runs, sid, key) then 1 else 0
  }

  ghost predicate Inv(s: Sys) {
    && (forall r | r in s.runs :: s.runs[r].sid in s.sessions)
    && (forall x | x in s.leaks :: x.0 in s.sessions)
    && Exclusive(s.runs)
    && HoldersLive(s)
    && (forall sid: Sid, key | s.Alive(sid) :: Balanced(s, sid, key))
  }

  lemma ActiveOnly(runs: map<Rid, RunCall>, r: Rid, sid: Sid, key: Key)
    requires Exclusive(runs) && r in runs && runs[r].sid == sid
    ensures Active(runs, sid, key) <==> runs[r].key == key && Inside(runs[r])
  {
  }

  lemma ActiveElsewhere(runs: map<Rid, RunCall>, runs': map<Rid, RunCall>, r: Rid, sid: Sid, key: Key)
    requires forall q | q != r :: (q in runs <==> q in runs') && (q in runs ==> runs[q] == runs'[q])
    requires r in runs ==> runs[r].sid != sid || !Inside(runs[r])
    requires r in runs' ==> runs'[r].sid != sid || !Inside(runs'[r])
    ensures Active(runs, sid, key) <==> Active(runs', sid, key)
  {
  }

  lemma ConnectKeepsInv(s: Sys, sid: Sid, replica: nat)
    requires Inv(s)
    ensures Inv(Next(s, Connect(sid, replica)))
  {
    var s' := Next(s, Connect(sid, replica));
    forall x: Sid, key | s'.Alive(x)
      ensures Balanced(s', x, key)
    {
      if x in s.sessions {
        assert Balanced(s, x, key);
      } else {
        assert HoldCount(s.locks, x, key) == 0 && s.Leaks(x, key) == 0 && !Active(s.runs, x, key);
      }
    }
  }

  lemma FetchKeepsInv(s: Sys, r: Rid, key: Key, sid: Sid)
    requires Inv(s)
    ensures Inv(DoFetch(s, r, key, sid))
  {
    var s' := DoFetch(s, r, key, sid);
    forall x: Sid, k | s'.Alive(x)
      ensures Balanced(s', x, k)
    {
      assert Balanced(s, x, k);
      if s' != s {
        ActiveElsewhere(s.runs, s'.runs, r, x, k);
      }
    }
  }

  /** A step of Run `r` that changes the stage of `r` and perhaps the lock and leaks of its own session
      and key. */
  lemma OwnStepKeepsInv(s: Sys, s': Sys, r: Rid)
    requires Inv(s) && r in s.runs && r in s'.runs && s'.sessions == s.sessions
    requires s'.runs == s.runs[r := s'.runs[r]] && s'.runs[r].sid == s.runs[r].sid && s'.runs[r].key == s.runs[r].key
    requires HoldersLive(s')
    requires forall x | x in s'.leaks :: x.0 in s'.sessions
    requires forall sid: Sid, key | (sid, key) != (s.runs[r].sid, s.runs[r].key) ::
      HoldCount(s'.locks, sid, key) == HoldCount(s.locks, sid, key) && s'.Leaks(sid, key) == s.Leaks(sid, key)
    requires s.Alive(s.runs[r].sid) ==>
      HoldCount(s'.locks, s.runs[r].sid, s.runs[r].key) - s'.Leaks(s.runs[r].sid, s.runs[r].key)
        == if Inside(s'.runs[r]) then 1 else 0
    ensures Inv(s')
  {
    forall sid: Sid, key | s'.Alive(sid)
      ensures Balanced(s', sid, key)
    {
      assert Balanced(s, sid, key);
      if sid == s.runs[r].sid {
        ActiveOnly(s.runs, r, sid, key);
        ActiveOnly(s'.runs, r, sid, key);
      } else {
        ActiveElsewhere(s.runs, s'.runs, r, sid, key);
      }
    }
  }

  lemma TryLockKeepsInv(s: Sys, r: Rid, fault: Fault)
    requires Inv(s)
    ensures Inv(DoTryLock(s, r, fault))
  {
    if r in s.runs && s.runs[r].stage == Fetched {
      var RunCall(key, sid, _) := s.runs[r];
      var s' := DoTryLock(s, r, fault);
      ActiveOnly(s.runs, r, sid, key);
      assert s.Alive(sid) ==> Balanced(s, sid, key);
      OwnStepKeepsInv(s, s', r);
    }
  }

  lemma UnlockKeepsInv(s: Sys, r: Rid, fault: Fault)
    requires Inv(s)
    ensures Inv(DoUnlock(s, r, fault))
  {
    if r in s.runs && s.runs[r].stage == Unlocking {
      var RunCall(key, sid, _) := s.runs[r];
      var s' := DoUnlock(s, r, fault);
      ActiveOnly(s.runs, r, sid, key);
      assert s.Alive(sid) ==> Balanced(s, sid, key);
      OwnStepKeepsInv(s, s', r);
    }
  }

  lemma FnReturnsKeepsInv(s: Sys, r: Rid)
    requires Inv(s)
    ensures Inv(DoFnReturns(s, r))
  {
    if r in s.runs && s.runs[r].stage == Executing {
      var RunCall(key, sid, _) := s.runs[r];
      ActiveOnly(s.runs, r, sid, key);
      assert s.Alive(sid) ==> Balanced(s, sid, key);
      OwnStepKeepsInv(s, DoFnReturns(s, r), r);
    }
  }

  lemma ReleaseKeepsInv(s: Sys, r: Rid)
    requires Inv(s)
    ensures Inv(DoRelease(s, r))
  {
    var s' := DoRelease(s, r);
    forall sid: Sid, key | s'.Alive(sid)
      ensures Balanced(s', sid, key)
    {
      assert Balanced(s, sid, key);
      if s' != s {
        ActiveElsewhere(s.runs, s'.runs, r, sid, key);
      }
    }
  }

  lemma DieKeepsInv(s: Sys, sid: Sid)
    requires Inv(s)
    ensures Inv(DoDie(s, sid))
  {
    var s' := DoDie(s, sid);
    forall x: Sid, key | s'.Alive(x)
      ensures Balanced(s', x, key)
    {
      assert Balanced(s, x, key);
    }
  }

  lemma NextKeepsInv(s: Sys, a: Action)
    requires Inv(s)
    ensures Inv(Next(s, a))
  {
    hide Inv;
    match a
    case Connect(sid, replica) => ConnectKeepsInv(s, sid, replica);
    case Fetch(r, key, sid) => FetchKeepsInv(s, r, key, sid);
    case TryLock(r, fault) => TryLockKeepsInv(s, r, fault);
    case FnReturns(r) => FnReturnsKeepsInv(s, r);
    case Unlock(r, fault) => UnlockKeepsInv(s, r, fault);
    case Release(r) => ReleaseKeepsInv(s, r);
    case Die(sid) => DieKeepsInv(s, sid);
  }

  lemma {:induction false} RunKeepsInv(s: Sys, trace: seq<Action>)
    requires Inv(s)
    ensures Inv(Run(s, trace))
  {
    hide Inv, Next;
    if trace == [] {
    } else {
      var n := |trace| - 1;
      RunKeepsInv(s, trace[..n]);
      NextKeepsInv(Run(s, trace[..n]), trace[n]);
    }
  }

  lemma Reachable(trace: seq<Action>)
    ensures Inv(Run(INIT, trace))
  {
    assert Inv(INIT);
    RunKeepsInv(INIT, trace);
  }

  // ------------------------------------------------------------------ theorems

  /** In every reachable state at most one Run per key is inside fn on a live session, re-entrancy, failed
      unlocks and reused connections notwithstanding. */
  lemma AtMostOneLeader(trace: seq<Action>, r: Rid, r': Rid)
    requires var s := Run(INIT, trace);
      && r in s.runs && r' in s.runs && s.runs[r].key == s.runs[r'].key
      && s.runs[r].stage == Executing && s.runs[r'].stage == Executing
      && s.Alive(s.runs[r].sid) && s.Alive(s.runs[r'].sid)
    ensures r == r'
  {
    hide Run;
    Reachable(trace);
    var s := Run(INIT, trace);
    var key := s.runs[r].key;
    assert Balanced(s, s.runs[r].sid, key) && Balanced(s, s.runs[r'].sid, key);
    ActiveOnly(s.runs, r, s.runs[r].sid, key);
    ActiveOnly(s.runs, r', s.runs[r'].sid, key);
  }

  /** In every reachable state every lock is held by a live session: no lock outlives its process. When
      all sessions of a replica are dead, none of its sessions holds any lock. */
  lemma DeadHoldNothing(trace: seq<Action>, replica: nat, key: Key)
    requires var s := Run(INIT, trace);
      forall sid | sid in s.sessions && s.sessions[sid].replica == replica :: !s.sessions[sid].alive
    ensures var s := Run(INIT, trace);
      key in s.locks ==> s.Alive(s.locks[key].sid) && s.sessions[s.locks[key].sid].replica != replica
  {
    hide Run;
    Reachable(trace);
  }

  /** No other live session has a Run inside for the key or a leak of it. */
  ghost predicate Unrivalled(s: Sys, sid: Sid, key: Key) {
    forall other: Sid | s.Alive(other) && other != sid :: s.Leaks(other, key) == 0 && !Active(s.runs, other, key)
  }

  lemma CanTakeIff(s: Sys, sid: Sid, key: Key)
    requires Inv(s)
    ensures CanTake(s.locks, sid, key) <==> Unrivalled(s, sid, key)
  {
    if CanTake(s.locks, sid, key) {
      forall other: Sid | s.Alive(other) && other != sid
        ensures s.Leaks(other, key) == 0 && !Active(s.runs, other, key)
      {
        assert Balanced(s, other, key);
      }
    } else {
      var other := s.locks[key].sid;
      assert s.Alive(other) && Balanced(s, other, key);
    }
  }

  /** Exactly when a Run on a live session wins the lock: when no other live session has a Run inside for
      the key or a leak of it. A leaked lock of an idle pooled connection shuts out everybody else. */
  lemma WinsIff(trace: seq<Action>, r: Rid)
    requires var s := Run(INIT, trace);
      r in s.runs && s.runs[r].stage == Fetched && s.Alive(s.runs[r].sid)
    ensures var s := Run(INIT, trace);
      DoTryLock(s, r, NoFault).runs[r].stage == Executing <==> Unrivalled(s, s.runs[r].sid, s.runs[r].key)
  {
    hide Run;
    Reachable(trace);
    var s := Run(INIT, trace);
    CanTakeIff(s, s.runs[r].sid, s.runs[r].key);
  }

  /** A try, answered without fault on a live session, that meets no rival. */
  ghost predicate Wins(s: Sys, a: Action) {
    && a.TryLock? && a.fault == NoFault
    && a.r in s.runs && s.runs[a.r].stage == Fetched
    && s.Alive(s.runs[a.r].sid) && Unrivalled(s, s.runs[a.r].sid, s.runs[a.r].key)
  }

  ghost function CountWins(trace: seq<Action>): nat {
    if trace == [] then 0
    else
      var init := trace[..|trace| - 1];
      CountWins(init) + if Wins(Run(INIT, init), trace[|trace| - 1]) then 1 else 0
  }

  /** In every run fn was called exactly once for each try that met no rival, and for no other reason. */
  lemma {:induction false} FnCallsAreWins(trace: seq<Action>)
    ensures Run(INIT, trace).fnCalls == CountWins(trace)
  {
    if trace == [] {
    } else {
      var init, a := trace[..|trace| - 1], trace[|trace| - 1];
      FnCallsAreWins(init);
      Reachable(init);
      NextCallsFn(Run(INIT, init), a);
    }
  }

  lemma NextCallsFn(s: Sys, a: Action)
    requires Inv(s)
    ensures Next(s, a).fnCalls == s.fnCalls + if Wins(s, a) then 1 else 0
  {
    if a.TryLock? && a.r in s.runs {
      CanTakeIff(s, s.runs[a.r].sid, s.runs[a.r].key);
    }
  }

  // ------------------------------------------------------------------ a Run leaves the lock as it was

  /** The actions of other Runs, while the session of `r` stays alive. */
  predicate Others(a: Action, r: Rid, sid: Sid) {
    match a
    case Connect(_, _) => true
    case Fetch(q, _, _) => q != r
    case TryLock(q, _) => q != r
    case FnReturns(q) => q != r
    case Unlock(q, _) => q != r
    case Release(q) => q != r
    case Die(x) => x != sid
  }

  ghost predicate SameHold(s: Sys, s': Sys, r: Rid) {
    && r in s.runs && r in s'.runs && s'.runs[r] == s.runs[r]
    && (s.Alive(s.runs[r].sid) ==> s'.Alive(s.runs[r].sid))
    && (forall key :: HoldCount(s'.locks, s.runs[r].sid, key) == HoldCount(s.locks, s.runs[r].sid, key))
  }

  lemma OthersKeepHold(s: Sys, a: Action, r: Rid)
    requires Inv(s) && r in s.runs && Others(a, r, s.runs[r].sid)
    ensures SameHold(s, Next(s, a), r)
  {
  }

  lemma {:induction false} OthersKeepHoldRun(s: Sys, trace: seq<Action>, r: Rid)
    requires Inv(s) && r in s.runs
    requires forall i | 0 <= i < |trace| :: Others(trace[i], r, s.runs[r].sid)
    ensures SameHold(s, Run(s, trace), r)
  {
    hide Next, HoldCount;
    if trace == [] {
    } else {
      var n := |trace| - 1;
      OthersKeepHoldRun(s, trace[..n], r);
      RunKeepsInv(s, trace[..n]);
      OthersKeepHold(Run(s, trace[..n]), trace[n], r);
    }
  }

  /** A Run whose try succeeds and whose unlock takes effect, its reply lost or not, whatever other Runs do
      meanwhile, leaves its session's hold on every lock as it found it and calls fn once. */
  lemma RunRestoresLock(s: Sys, r: Rid, first: seq<Action>, second: seq<Action>, unlock: Fault)
    requires unlock != Lost
    requires Inv(s) && r in s.runs && s.runs[r].stage == Fetched && s.Alive(s.runs[r].sid)
    requires CanTake(s.locks, s.runs[r].sid, s.runs[r].key)
    requires forall i | 0 <= i < |first| :: Others(first[i], r, s.runs[r].sid)
    requires forall i | 0 <= i < |second| :: Others(second[i], r, s.runs[r].sid)
    ensures var s1 := Next(s, TryLock(r, NoFault));
      var s2 := Next(Run(s1, first), FnReturns(r));
      var s3 := Next(Run(s2, second), Unlock(r, unlock));
      && s1.fnCalls == s.fnCalls + 1
      && r in s3.runs && s3.runs[r].stage == Leaving
      && forall key :: HoldCount(s3.locks, s.runs[r].sid, key) == HoldCount(s.locks, s.runs[r].sid, key)
  {
    hide Run;
    var s1 := Next(s, TryLock(r, NoFault));
    NextKeepsInv(s, TryLock(r, NoFault));
    OthersKeepHoldRun(s1, first, r);
    RunKeepsInv(s1, first);
    var m1 := Run(s1, first);
    var s2 := Next(m1, FnReturns(r));
    NextKeepsInv(m1, FnReturns(r));
    OthersKeepHoldRun(s2, second, r);
    var m2 := Run(s2, second);
    var sid, k := s.runs[r].sid, s.runs[r].key;
    forall key
      ensures HoldCount(GivenBack(m2.locks, sid, k), sid, key) == HoldCount(s.locks, sid, key)
    {
      assert HoldCount(s1.locks, sid, key) == HoldCount(s.locks, sid, key) + if key == k then 1 else 0;
      assert HoldCount(m2.locks, sid, key) == HoldCount(s1.locks, sid, key);
    }
  }

  // ------------------------------------------------------------------ a Run that loses

  /** The try of `r` loses to another session, or fails without effect. */
  predicate Loses(s: Sys, r: Rid, fault: Fault) {
    r in s.runs && (fault == Lost || !s.Alive(s.runs[r].sid) || !CanTake(s.locks, s.runs[r].sid, s.runs[r].key))
  }

  /** `r` is not inside fn, and its session `sid` holds what it held at the start. */
  ghost predicate Untouched(s: Sys, s': Sys, r: Rid, sid: Sid) {
    && (r in s'.runs ==> !Inside(s'.runs[r]))
    && (forall key :: HoldCount(s'.locks, sid, key) == HoldCount(s.locks, sid, key))
  }

  /** The life of a Run that does not get the lock: others act, it tries, others act, it releases. */
  function LosingRun(r: Rid, first: seq<Action>, fault: Fault, second: seq<Action>): seq<Action> {
    first + [TryLock(r, fault)] + second + [Release(r)]
  }

  /** A Run whose try loses, or fails without effect, is at no moment inside fn, and at every moment until
      it has given its connection back its session holds every lock as often as before. */
  lemma LoserChangesNothing(s: Sys, r: Rid, first: seq<Action>, fault: Fault, second: seq<Action>, n: nat)
    requires Inv(s) && r in s.runs && s.runs[r].stage == Fetched
    requires forall i | 0 <= i < |first| :: Others(first[i], r, s.runs[r].sid)
    requires forall i | 0 <= i < |second| :: Others(second[i], r, s.runs[r].sid)
    requires Loses(Run(s, first), r, fault)
    requires n <= |LosingRun(r, first, fault, second)|
    ensures Untouched(s, Run(s, LosingRun(r, first, fault, second)[..n]), r, s.runs[r].sid)
    ensures r !in Run(s, LosingRun(r, first, fault, second)).runs
  {
    hide Run, HoldCount, Next;
    var trace, sid := LosingRun(r, first, fault, second), s.runs[r].sid;
    var tried := first + [TryLock(r, fault)];
    RunSnoc(s, first, TryLock(r, fault));
    OthersKeepHoldRun(s, first, r);
    RunKeepsInv(s, tried);
    LosingTry(Run(s, first), r, fault);
    var s1 := Run(s, tried);
    OthersKeepHoldRun(s1, second, r);
    RunConcat(s, tried, second);
    RunSnoc(s, tried + second, Release(r));
    Releases(Run(s1, second), r);
    if n <= |first| {
      assert trace[..n] == first[..n];
      OthersKeepHoldRun(s, first[..n], r);
    } else if n <= |tried + second| {
      var k := n - |tried|;
      assert trace[..n] == tried + second[..k];
      RunConcat(s, tried, second[..k]);
      OthersKeepHoldRun(s1, second[..k], r);
    } else {
      assert trace[..n] == trace;
    }
  }

  lemma LosingTry(s: Sys, r: Rid, fault: Fault)
    requires r in s.runs && s.runs[r].stage == Fetched && Loses(s, r, fault)
    ensures Next(s, TryLock(r, fault)) == SetStage(s, r, Leaving)
  {
  }

  lemma Releases(s: Sys, r: Rid)
    requires r in s.runs && s.runs[r].stage == Leaving
    ensures Next(s, Release(r)) == s.(runs := s.runs - {r})
  {
  }

  // ------------------------------------------------------------------ what a failed unlock costs

  predicate Survives(trace: seq<Action>, sid: Sid) {
    forall i | 0 <= i < |trace| :: trace[i] != Die(sid)
  }

  lemma {:induction false} LeaksStay(s: Sys, trace: seq<Action>, sid: Sid, key: Key)
    requires s.Alive(sid) && Survives(trace, sid)
    ensures Run(s, trace).Alive(sid) && Run(s, trace).Leaks(sid, key) >= s.Leaks(sid, key)
  {
    hide Next;
    if trace == [] {
    } else {
      var n := |trace| - 1;
      LeaksStay(s, trace[..n], sid, key);
      NextKeepsLeaks(Run(s, trace[..n]), trace[n], sid, key);
    }
  }

  lemma NextKeepsLeaks(s: Sys, a: Action, sid: Sid, key: Key)
    requires s.Alive(sid) && a != Die(sid)
    ensures Next(s, a).Alive(sid) && Next(s, a).Leaks(sid, key) >= s.Leaks(sid, key)
  {
  }

  /** Nobody but `sid` can have the lock. */
  ghost predicate ShutsOut(s: Sys, sid: Sid, key: Key) {
    && key in s.locks && s.locks[key].sid == sid
    && (forall other: Sid | s.Alive(other) && other != sid :: !Active(s.runs, other, key))
    && (forall q, fault | q in s.runs && s.runs[q].stage == Fetched && s.runs[q].key == key && s.runs[q].sid != sid ::
          DoTryLock(s, q, fault) == SetStage(s, q, Leaving))
  }

  /** A lock leaked on a session is held by that session at every later moment of every run until the
      session ends: no other session has a Run inside, and every try of theirs loses. */
  lemma LeakShutsOut(s: Sys, later: seq<Action>, sid: Sid, key: Key)
    requires Inv(s) && s.Alive(sid) && s.Leaks(sid, key) >= 1 && Survives(later, sid)
    ensures ShutsOut(Run(s, later), sid, key)
  {
    hide Run;
    LeaksStay(s, later, sid, key);
    RunKeepsInv(s, later);
    var s' := Run(s, later);
    assert Balanced(s', sid, key);
    CanTakeElsewhere(s', sid, key);
  }

  lemma CanTakeElsewhere(s: Sys, sid: Sid, key: Key)
    requires Inv(s) && key in s.locks && s.locks[key].sid == sid
    ensures ShutsOut(s, sid, key)
  {
    forall other: Sid | s.Alive(other) && other != sid
      ensures !Active(s.runs, other, key)
    {
      assert Balanced(s, other, key);
    }
  }

  /** When the unlock of a Run fails without effect, then in whatever way the run goes on, connection
      returned or not, all other sessions are shut out until that session ends; its end frees the lock. */
  lemma FailedUnlockShutsOut(trace: seq<Action>, r: Rid, later: seq<Action>)
    requires var s := Run(INIT, trace);
      r in s.runs && s.runs[r].stage == Unlocking && s.Alive(s.runs[r].sid) && Survives(later, s.runs[r].sid)
    ensures var s := Run(INIT, trace);
      var RunCall(key, sid, _) := s.runs[r];
      var s' := Run(Next(s, Unlock(r, Lost)), later);
      ShutsOut(s', sid, key) && key !in Next(s', Die(sid)).locks
  {
    hide Run, Inv;
    Reachable(trace);
    var s := Run(INIT, trace);
    NextKeepsInv(s, Unlock(r, Lost));
    LeakShutsOut(Next(s, Unlock(r, Lost)), later, s.runs[r].sid, s.runs[r].key);
    LeaksStay(Next(s, Unlock(r, Lost)), later, s.runs[r].sid, s.runs[r].key);
  }

  /** A try whose reply is lost takes the lock all the same: Run returns without fn and without unlocking, and
      all other sessions are shut out until that session ends. */
  lemma UnansweredTryShutsOut(trace: seq<Action>, r: Rid, later: seq<Action>)
    requires var s := Run(INIT, trace);
      && r in s.runs && s.runs[r].stage == Fetched && s.Alive(s.runs[r].sid) && Survives(later, s.runs[r].sid)
      && Unrivalled(s, s.runs[r].sid, s.runs[r].key)
    ensures var s := Run(INIT, trace);
      var RunCall(key, sid, _) := s.runs[r];
      var s1 := Next(s, TryLock(r, Ambiguous));
      && r in s1.runs && s1.runs[r].stage == Leaving && s1.fnCalls == s.fnCalls
      && ShutsOut(Run(s1, later), sid, key)
  {
    hide Run, Inv;
    Reachable(trace);
    var s := Run(INIT, trace);
    var RunCall(key, sid, _) := s.runs[r];
    CanTakeIff(s, sid, key);
    NextKeepsInv(s, TryLock(r, Ambiguous));
    LeakShutsOut(Next(s, TryLock(r, Ambiguous)), later, sid, key);
  }

  /** So returning the connection does not give the lock up: nobody is left inside, and still every other
      session is shut out. */
  lemma ReleaseKeepsLeakedLock(trace: seq<Action>, r: Rid)
    requires var s := Run(INIT, trace);
      r in s.runs && s.runs[r].stage == Unlocking && s.Alive(s.runs[r].sid)
    ensures var s := Run(INIT, trace);
      var RunCall(key, sid, _) := s.runs[r];
      var s' := Next(Next(s, Unlock(r, Lost)), Release(r));
      ShutsOut(s', sid, key) && r !in s'.runs && !s'.Busy(sid)
  {
    hide Run, ShutsOut;
    Reachable(trace);
    var s := Run(INIT, trace);
    var s1 := Next(s, Unlock(r, Lost));
    var none: seq<Action> := [];
    RunSnoc(s1, none, Release(r));
    RunNothing(s1);
    FailedUnlockShutsOut(trace, r, none + [Release(r)]);
  }

  lemma RunNothing(s: Sys)
    ensures Run(s, []) == s
  {
  }
}
