/** Why a ShortenURL call fails: in every run exactly because of a failed lookup, a failed insert or an
    occupied key met at one of its own steps; and a call that has failed never acts again. */
module CallFailures {
  import opened Prelude
  import opened UrlTable
  import opened ShortKeys
  import opened ShortenProtocol
  import opened SequentialShorten
  import opened AllocationTheorems

  /** Action `a` in state `s` makes call `p` fail. */
  ghost predicate FailsAt(s: Sys, a: Action, p: Pid, why: Failure) {
    p in s.procs &&
    match why
    case LookupFailed => a.LookupStep? && a.p == p && s.procs[p].pc.Lookup? && a.fault != NoFault
    case CreateFailed => a.CreateStep? && a.p == p && s.procs[p].pc.Create? && a.fault != NoFault
    case Conflict =>
      && a.CreateStep? && a.p == p && s.procs[p].pc.Create? && a.fault == NoFault
      && Occupied(s.Primary(), s.procs[p].pc.key)
  }

  ghost predicate HasFailed(s: Sys, p: Pid, why: Failure) {
    p in s.procs && s.procs[p].pc == Failed(why)
  }

  /** Step `n` of the trace makes call `p` fail. */
  ghost predicate Fails(hash: Hash, trace: seq<Action>, n: nat, p: Pid, why: Failure) {
    n < |trace| && FailsAt(Run(hash, INIT, trace[..n]), trace[n], p, why)
  }

  lemma OccupiedIff(t: Table, key: string)
    ensures Occupied(t, key) <==> Find(t, key).Some?
  {
    FreeKey(t, key);
  }

  lemma NextFails(hash: Hash, s: Sys, a: Action, p: Pid, why: Failure)
    ensures HasFailed(Next(hash, s, a), p, why) <==> HasFailed(s, p, why) || FailsAt(s, a, p, why)
  {
    if a.CreateStep? && a.p in s.procs && s.procs[a.p].pc.Create? {
      OccupiedIff(s.Primary(), s.procs[a.p].pc.key);
    }
    hide Find, Slot, StaleRows, Occupied;
  }

  lemma FailsInPrefix(hash: Hash, init: seq<Action>, a: Action, p: Pid, why: Failure)
    ensures (exists n :: Fails(hash, init + [a], n, p, why)) <==>
      (exists n :: Fails(hash, init, n, p, why)) || FailsAt(Run(hash, INIT, init), a, p, why)
  {
    hide Run, FailsAt;
    var trace := init + [a];
    assert forall n | 0 <= n < |init| :: trace[..n] == init[..n] && trace[n] == init[n];
    assert trace[..|init|] == init;
    if n: nat :| Fails(hash, init, n, p, why) {
      assert Fails(hash, trace, n, p, why);
    }
    if FailsAt(Run(hash, INIT, init), a, p, why) {
      assert Fails(hash, trace, |init|, p, why);
    }
    if n: nat :| Fails(hash, trace, n, p, why) && n < |init| {
      assert Fails(hash, init, n, p, why);
    }
  }

  /** In every run a call has failed for a reason exactly when one of its own steps met that reason: its
      lookup failed, its insert failed, or its insert found the key occupied. */
  lemma {:induction false} FailedIff(hash: Hash, trace: seq<Action>, p: Pid, why: Failure)
    ensures HasFailed(Run(hash, INIT, trace), p, why) <==> exists n :: Fails(hash, trace, n, p, why)
  {
    hide Next, HasFailed, FailsAt;
    if trace == [] {
      assert !HasFailed(INIT, p, why) by {
        NobodyFailedYet(p, why);
      }
    } else {
      var init, a := trace[..|trace| - 1], trace[|trace| - 1];
      FailedIff(hash, init, p, why);
      NextFails(hash, Run(hash, INIT, init), a, p, why);
      FailsInPrefix(hash, init, a, p, why);
      assert init + [a] == trace;
    }
  }

  lemma NobodyFailedYet(p: Pid, why: Failure)
    ensures !HasFailed(INIT, p, why)
  {
  }

  predicate StepOf(a: Action, p: Pid) {
    match a
    case Begin(q, _) => q == p
    case LookupStep(q, _, _) => q == p
    case CreateStep(q, _) => q == p
    case LogStep(q, _) => q == p
    case _ => false
  }

  /** A call that has failed stays failed for the same reason, and none of its steps ever has an effect:
      it inserts no row and writes no log. */
  lemma {:induction false} FailedForGood(hash: Hash, s: Sys, later: seq<Action>, p: Pid, why: Failure)
    requires HasFailed(s, p, why)
    ensures var s' := Run(hash, s, later);
      HasFailed(s', p, why) && forall a | StepOf(a, p) :: Next(hash, s', a) == s'
  {
    if later == [] {
    } else {
      var init, a := later[..|later| - 1], later[|later| - 1];
      FailedForGood(hash, s, init, p, why);
      NextFails(hash, Run(hash, s, init), a, p, why);
    }
  }

  /** What the failing step itself does: a failed lookup and an occupied key leave the tables alone; a failed
      insert adds the row exactly when it took effect and the key was free. */
  lemma FailingStepEffect(hash: Hash, s: Sys, a: Action, p: Pid, why: Failure)
    requires FailsAt(s, a, p, why)
    ensures var s', Proc(url, pc) := Next(hash, s, a), s.procs[p];
      && s'.logs == s.logs && s'.attempts == s.attempts && s'.pending == s.pending
      && s'.Primary() ==
           if why == CreateFailed && a.fault == Ambiguous && !Occupied(s.Primary(), pc.key)
           then s.Primary() + [Row(url, pc.key, ZERO_TIME, true, None)] else s.Primary()
  {
    OccupiedIff(s.Primary(), if s.procs[p].pc.Create? then s.procs[p].pc.key else "");
    hide Find, Slot, Occupied;
  }
}
