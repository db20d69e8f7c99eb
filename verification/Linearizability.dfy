/** Without cleanup ShortenURL is linearizable: every call that succeeds takes effect at one of its own steps,
    at which it does exactly what the sequential specification says of the primary at that instant, however
    many calls race and however old the states are that lookups read. */
module Linearizability {
  import opened Prelude
  import opened UrlTable
  import opened ShortKeys
  import opened ShortenProtocol
  import opened SequentialShorten
  import opened DeleteFreeRuns
  import opened UrlSplits

  /** The call has its row: it is about to log, or has returned. */
  predicate HasRow(pc: Pc) {
    pc.Log? || pc.Done?
  }

  lemma TakenIsBlocked(t: Table, url: string, key: string)
    requires UniqueLive(t) && AllLive(t) && Taken(t, url, key)
    ensures Blocked(t, url, key)
  {
    var i :| 0 <= i < |t| && t[i].key == key && t[i].url != url;
    FindLive(t, i);
  }

  lemma PrefixIsBlocked(hash: Hash, t: Table, url: string, n: nat)
    requires UniqueLive(t) && AllLive(t) && PrefixTaken(hash, t, url, n)
    ensures forall j | 0 <= j < n :: Blocked(t, url, Slot(hash, url, j))
  {
    forall j | 0 <= j < n
      ensures Blocked(t, url, Slot(hash, url, j))
    {
      TakenIsBlocked(t, url, Slot(hash, url, j));
    }
  }

  /** An insert that succeeds is the one the specification makes on the primary of that instant. */
  lemma InsertDecides(hash: Hash, t: Table, url: string, pc: Pc)
    requires UniqueLive(t) && AllLive(t) && pc.Create? && PcInv(hash, t, url, pc) && PcSettled(hash, t, url, pc)
    requires Find(t, pc.key).None?
    ensures Expected(hash, t, url) == Answer(Insert(t, NewRow(url, pc.key), NoFault), Done(|t|, pc.key))
  {
    PrefixIsBlocked(hash, t, url, pc.attempt);
    ExpectedFree(hash, t, url, pc.attempt);
  }

  /** A lookup that finds the URL's own row, in whatever earlier state, returns the row the specification
      returns on the primary of that instant. */
  lemma LookupDecides(hash: Hash, t: Table, url: string, pc: Pc, reply: Reply)
    requires UniqueLive(t) && AllLive(t) && pc.Lookup? && PcInv(hash, t, url, pc) && PcSettled(hash, t, url, pc)
    requires ReplySound(t, pc.key, reply) && reply.Found? && reply.row.url == url
    ensures Expected(hash, t, url) == Answer(t, Done(reply.id, pc.key))
  {
    hide Find, Slot;
    PrefixIsBlocked(hash, t, url, pc.attempt);
    FindLive(t, reply.id);
    assert !Blocked(t, url, Slot(hash, url, pc.attempt));
    assert FirstOpen(hash, t, url, 0) == pc.attempt;
  }

  /** The step at which a call gets its row. */
  predicate GetsRow(s: Sys, s': Sys, p: Pid) {
    p in s'.procs && HasRow(s'.procs[p].pc) && !(p in s.procs && HasRow(s.procs[p].pc))
  }

  lemma OwnStepGetsRow(hash: Hash, s: Sys, a: Action, p: Pid)
    requires GetsRow(s, Next(hash, s, a), p)
    ensures (a.LookupStep? || a.CreateStep?) && a.p == p && a.fault == NoFault
    ensures p in s.procs && (if a.LookupStep? then s.procs[p].pc.Lookup? else s.procs[p].pc.Create?)
  {
    hide Find, Slot, StaleRows;
  }

  lemma StepDecides(hash: Hash, s: Sys, a: Action, p: Pid)
    requires Inv(hash, s) && Tidy(hash, s) && GetsRow(s, Next(hash, s, a), p)
    ensures var s' := Next(hash, s, a);
      var Proc(url, pc) := s'.procs[p];
      Expected(hash, s.Primary(), url) == Answer(s'.Primary(), Done(pc.id, pc.key))
  {
    OwnStepGetsRow(hash, s, a, p);
    var Proc(url, pc) := s.procs[p];
    assert PcInv(hash, s.Primary(), url, pc) && PcSettled(hash, s.Primary(), url, pc);
    hide Find, Expected, Slot, PcInv, PcSettled, ReplySound, HistoryInv;
    if a.LookupStep? {
      var reply := Read(s, pc.key, a.seen, NoFault);
      ReadIsSound(s, pc.key, a.seen, NoFault);
      assert reply.Found? && reply.row.url == url && reply.row.key == pc.key by {
        FoundUnderKey(s, pc.key, a.seen);
      }
      LookupDecides(hash, s.Primary(), url, pc, reply);
    } else {
      InsertDecides(hash, s.Primary(), url, pc);
    }
  }

  lemma FoundUnderKey(s: Sys, key: string, seen: Option<nat>)
    ensures var reply := Read(s, key, seen, NoFault); reply.Found? ==> reply.row.key == key
  {
  }

  /** Step `n` of the trace is a step of call `p`, and what it does to the primary, and the answer it
      settles, are what the specification says of the primary just before it. */
  ghost predicate Decides(hash: Hash, trace: seq<Action>, n: nat, p: Pid, url: string, id: Id, key: string) {
    && n < |trace| && (trace[n].LookupStep? || trace[n].CreateStep?) && trace[n].p == p
    && Expected(hash, Run(hash, INIT, trace[..n]).Primary(), url)
         == Answer(Run(hash, INIT, trace[..n + 1]).Primary(), Done(id, key))
  }

  lemma RowStays(hash: Hash, s: Sys, a: Action, p: Pid)
    requires p in s.procs && HasRow(s.procs[p].pc)
    ensures var s' := Next(hash, s, a);
      && p in s'.procs && HasRow(s'.procs[p].pc) && s'.procs[p].url == s.procs[p].url
      && s'.procs[p].pc.id == s.procs[p].pc.id && s'.procs[p].pc.key == s.procs[p].pc.key
  {
    hide Find, Slot, StaleRows;
  }

  lemma DecidesInPrefix(hash: Hash, init: seq<Action>, a: Action, n: nat, p: Pid, url: string, id: Id, key: string)
    requires Decides(hash, init, n, p, url, id, key)
    ensures Decides(hash, init + [a], n, p, url, id, key)
  {
    hide Run, Expected;
    assert (init + [a])[..n] == init[..n] && (init + [a])[..n + 1] == init[..n + 1];
  }

  lemma DecidesNow(hash: Hash, init: seq<Action>, a: Action, p: Pid)
    requires var s := Run(hash, INIT, init); Inv(hash, s) && Tidy(hash, s) && GetsRow(s, Next(hash, s, a), p)
    ensures var Proc(url, pc) := Next(hash, Run(hash, INIT, init), a).procs[p];
      Decides(hash, init + [a], |init|, p, url, pc.id, pc.key)
  {
    hide Run, Next, Expected, Inv, Tidy;
    var trace := init + [a];
    RunSnoc(hash, INIT, init, a);
    OwnStepGetsRow(hash, Run(hash, INIT, init), a, p);
    StepDecides(hash, Run(hash, INIT, init), a, p);
    assert trace[..|init|] == init && trace[..|init| + 1] == trace;
  }

  /** In every run without cleanup, each call that has returned took effect at one of its own steps. */
  lemma {:induction false} Linearizable(hash: Hash, trace: seq<Action>, p: Pid)
    requires NoSweep(trace) && p in Run(hash, INIT, trace).procs && HasRow(Run(hash, INIT, trace).procs[p].pc)
    ensures var Proc(url, pc) := Run(hash, INIT, trace).procs[p];
      exists n :: Decides(hash, trace, n, p, url, pc.id, pc.key)
  {
    hide Next, Inv, Tidy, Decides;
    if trace == [] {
    } else {
      var init, a := trace[..|trace| - 1], trace[|trace| - 1];
      var s := Run(hash, INIT, init);
      var Proc(url, pc) := Run(hash, INIT, trace).procs[p];
      assert trace == init + [a];
      hide Run;
      RunSnoc(hash, INIT, init, a);
      if p in s.procs && HasRow(s.procs[p].pc) {
        RowStays(hash, s, a, p);
        Linearizable(hash, init, p);
        var n :| Decides(hash, init, n, p, url, pc.id, pc.key);
        DecidesInPrefix(hash, init, a, n, p, url, pc.id, pc.key);
      } else {
        TidyRuns(hash, init);
        DecidesNow(hash, init, a, p);
      }
    }
  }
}
