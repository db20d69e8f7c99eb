/** Runs without cleanup: there a URL has at most one row and all its ShortenURL calls agree, however
    many of them race and however stale the replicas are. */
module DeleteFreeRuns {
  import opened Prelude
  import opened UrlTable
  import opened ShortKeys
  import opened ShortenProtocol

  predicate NoSweep(trace: seq<Action>) {
    forall i | 0 <= i < |trace| :: !trace[i].SweepStep?
  }

  ghost predicate AllLive(t: Table) {
    forall i | 0 <= i < |t| :: t[i].Live()
  }

  /** The key belongs to a row of another URL. */
  ghost predicate Taken(t: Table, url: string, key: string) {
    exists i :: 0 <= i < |t| && t[i].key == key && t[i].url != url
  }

  ghost predicate PrefixTaken(hash: Hash, t: Table, url: string, n: nat) {
    forall j | 0 <= j < n :: Taken(t, url, Slot(hash, url, j))
  }

  ghost predicate SettledAt(hash: Hash, t: Table, row: Row, j: nat) {
    j <= 6 && row.key == Slot(hash, row.url, j) && PrefixTaken(hash, t, row.url, j)
  }

  ghost predicate Settled(hash: Hash, t: Table, row: Row) {
    exists j: nat :: SettledAt(hash, t, row, j)
  }

  ghost predicate PcSettled(hash: Hash, t: Table, url: string, pc: Pc) {
    pc.Lookup? || pc.Create? ==> PrefixTaken(hash, t, url, pc.attempt)
  }

  ghost predicate RowsSettled(hash: Hash, t: Table) {
    forall i | 0 <= i < |t| :: Settled(hash, t, t[i])
  }

  ghost predicate ProcsSettled(hash: Hash, t: Table, procs: map<Pid, Proc>) {
    forall p | p in procs :: PcSettled(hash, t, procs[p].url, procs[p].pc)
  }

  ghost predicate Tidy(hash: Hash, s: Sys) {
    AllLive(s.Primary()) && RowsSettled(hash, s.Primary()) && ProcsSettled(hash, s.Primary(), s.procs)
  }

  lemma TakenEvolves(t: Table, t': Table, url: string, key: string)
    requires Taken(t, url, key) && Evolves(t, t')
    ensures Taken(t', url, key)
  {
    var i :| 0 <= i < |t| && t[i].key == key && t[i].url != url;
    assert t'[i].key == key && t'[i].url != url;
  }

  lemma PrefixEvolves(hash: Hash, t: Table, t': Table, url: string, n: nat)
    requires PrefixTaken(hash, t, url, n) && Evolves(t, t')
    ensures PrefixTaken(hash, t', url, n)
  {
    forall j | 0 <= j < n
      ensures Taken(t', url, Slot(hash, url, j))
    {
      TakenEvolves(t, t', url, Slot(hash, url, j));
    }
  }

  lemma RowEvolves(hash: Hash, t: Table, t': Table, row: Row, row': Row)
    requires Settled(hash, t, row) && Evolves(t, t') && row'.url == row.url && row'.key == row.key
    ensures Settled(hash, t', row')
  {
    var j: nat :| SettledAt(hash, t, row, j);
    PrefixEvolves(hash, t, t', row.url, j);
    assert SettledAt(hash, t', row', j);
  }

  lemma ProcsEvolve(hash: Hash, t: Table, t': Table, procs: map<Pid, Proc>)
    requires ProcsSettled(hash, t, procs) && Evolves(t, t')
    ensures ProcsSettled(hash, t', procs)
  {
    forall p | p in procs
      ensures PcSettled(hash, t', procs[p].url, procs[p].pc)
    {
      var Proc(url, pc) := procs[p];
      assert PcSettled(hash, t, url, pc);
      if pc.Lookup? || pc.Create? {
        PrefixEvolves(hash, t, t', url, pc.attempt);
      }
    }
  }

  lemma AfterLookupSettled(hash: Hash, t: Table, url: string, pc: Pc, reply: Reply)
    requires pc.Lookup? && PcInv(hash, t, url, pc) && PcSettled(hash, t, url, pc) && ReplySound(t, pc.key, reply)
    ensures PcSettled(hash, t, url, AfterLookup(hash, url, pc.attempt, pc.key, reply))
  {
    if reply.Found? && reply.row.url != url {
      assert Taken(t, url, pc.key);
      assert PrefixTaken(hash, t, url, pc.attempt + 1);
    }
  }

  lemma SetTidy(hash: Hash, s: Sys, p: Pid, pc: Pc)
    requires Tidy(hash, s) && p in s.procs && PcSettled(hash, s.Primary(), s.procs[p].url, pc)
    ensures Tidy(hash, Set(s, p, pc))
  {
  }

  lemma LookupTidy(hash: Hash, s: Sys, p: Pid, seen: Option<nat>, fault: Fault)
    requires Inv(hash, s) && Tidy(hash, s)
    ensures Tidy(hash, DoLookup(hash, s, p, seen, fault))
  {
    if p in s.procs && s.procs[p].pc.Lookup? {
      var Proc(url, pc) := s.procs[p];
      var reply := Read(s, pc.key, seen, fault);
      ReadIsSound(s, pc.key, seen, fault);
      AfterLookupSettled(hash, s.Primary(), url, pc, reply);
      SetTidy(hash, s, p, AfterLookup(hash, url, pc.attempt, pc.key, reply));
    }
  }

  lemma CreateTidy(hash: Hash, s: Sys, p: Pid, fault: Fault)
    requires Inv(hash, s) && Tidy(hash, s)
    ensures Tidy(hash, DoCreate(s, p, fault))
  {
    if p in s.procs && s.procs[p].pc.Create? {
      var Proc(url, pc) := s.procs[p];
      var t, row := s.Primary(), NewRow(url, pc.key);
      var t' := Insert(t, row, fault);
      assert PcInv(hash, t, url, pc) && PcSettled(hash, t, url, pc);
      assert SettledAt(hash, t, row, pc.attempt);
      AfterCreateInv(hash, t, url, pc.key, fault);
      InsertTidy(hash, t, row, fault);
      ProcsEvolve(hash, t, t', s.procs);
      var mid := s.Commit(t');
      assert mid.Primary() == t';
      SetTidy(hash, mid, p, AfterCreate(t, pc.key, fault));
    }
  }

  lemma InsertTidy(hash: Hash, t: Table, row: Row, fault: Fault)
    requires AllLive(t) && RowsSettled(hash, t) && row.Live() && Settled(hash, t, row)
    ensures AllLive(Insert(t, row, fault)) && RowsSettled(hash, Insert(t, row, fault))
  {
    var t' := Insert(t, row, fault);
    forall i | 0 <= i < |t'|
      ensures Settled(hash, t', t'[i])
    {
      RowEvolves(hash, t, t', if i < |t| then t[i] else row, t'[i]);
    }
  }

  lemma StampTidy(hash: Hash, s: Sys, k: nat, at: int, fault: Fault)
    requires Inv(hash, s) && Tidy(hash, s)
    ensures Tidy(hash, DoStamp(s, k, at, fault))
  {
    if k < |s.pending| && fault != Lost {
      var t := s.Primary();
      var t' := Stamp(t, s.pending[k], at);
      StampEvolves(t, s.pending[k], at);
      forall i | 0 <= i < |t'|
        ensures Settled(hash, t', t'[i]) && t'[i].Live()
      {
        RowEvolves(hash, t, t', t[i], t'[i]);
      }
      ProcsEvolve(hash, t, t', s.procs);
    }
  }

  lemma NextTidy(hash: Hash, s: Sys, a: Action)
    requires Inv(hash, s) && Tidy(hash, s) && !a.SweepStep?
    ensures Tidy(hash, Next(hash, s, a))
  {
    match a
    case LookupStep(p, seen, fault) => LookupTidy(hash, s, p, seen, fault);
    case CreateStep(p, fault) => CreateTidy(hash, s, p, fault);
    case StampStep(k, at, fault) => StampTidy(hash, s, k, at, fault);
    case Begin(p, url) =>
      var procs := DoBegin(hash, s, p, url).procs;
      assert ProcsSettled(hash, s.Primary(), procs);
    case LogStep(p, fault) =>
      var procs := DoLog(s, p, fault).procs;
      assert ProcsSettled(hash, s.Primary(), procs);
    case Visit(key, seen, fault) =>
  }

  lemma {:induction false} RunTidy(hash: Hash, s: Sys, trace: seq<Action>)
    requires Inv(hash, s) && Tidy(hash, s) && NoSweep(trace)
    ensures Tidy(hash, Run(hash, s, trace))
  {
    if trace == [] {
    } else {
      var n := |trace| - 1;
      RunTidy(hash, s, trace[..n]);
      RunKeepsInv(hash, s, trace[..n]);
      NextTidy(hash, Run(hash, s, trace[..n]), trace[n]);
    }
  }

  lemma OwnKeyIsNotTaken(t: Table, a: Id)
    requires UniqueLive(t) && AllLive(t) && a < |t|
    ensures !Taken(t, t[a].url, t[a].key)
  {
    assert forall c | 0 <= c < |t| && t[c].key == t[a].key :: c == a;
  }

  /** The heart of the argument: of two rows of one URL, the one with the larger slot was inserted after
      the smaller slot had been seen in the hands of another URL. */
  lemma OneRowPerUrl(hash: Hash, t: Table, a: Id, b: Id)
    requires UniqueLive(t) && AllLive(t) && RowsSettled(hash, t)
    requires a < |t| && b < |t| && t[a].url == t[b].url
    ensures a == b
  {
    var url := t[a].url;
    var i: nat :| SettledAt(hash, t, t[a], i);
    var j: nat :| SettledAt(hash, t, t[b], j);
    OwnKeyIsNotTaken(t, a);
    OwnKeyIsNotTaken(t, b);
    assert i < j ==> Taken(t, url, Slot(hash, url, i));
    assert j < i ==> Taken(t, url, Slot(hash, url, j));
    assert i == j;
  }

  ghost predicate OneRowEach(t: Table) {
    forall a, b | 0 <= a < |t| && 0 <= b < |t| && t[a].url == t[b].url :: a == b
  }

  ghost predicate OneAnswerEach(procs: map<Pid, Proc>) {
    forall p, q | p in procs && q in procs && procs[p].pc.Done? && procs[q].pc.Done? && procs[p].url == procs[q].url ::
      procs[p].pc == procs[q].pc
  }

  lemma TableHasOneRowEach(hash: Hash, t: Table)
    requires UniqueLive(t) && AllLive(t) && RowsSettled(hash, t)
    ensures OneRowEach(t)
  {
    forall a, b | 0 <= a < |t| && 0 <= b < |t| && t[a].url == t[b].url
      ensures a == b
    {
      OneRowPerUrl(hash, t, a, b);
    }
  }

  lemma CallsAgree(hash: Hash, t: Table, procs: map<Pid, Proc>)
    requires OneRowEach(t) && ProcsInv(hash, t, procs)
    ensures OneAnswerEach(procs)
  {
    forall p, q | p in procs && q in procs && procs[p].pc.Done? && procs[q].pc.Done? && procs[p].url == procs[q].url
      ensures procs[p].pc == procs[q].pc
    {
      assert PcInv(hash, t, procs[p].url, procs[p].pc) && PcInv(hash, t, procs[q].url, procs[q].pc);
    }
  }

  lemma InitTidy(hash: Hash)
    ensures Inv(hash, INIT) && Tidy(hash, INIT)
  {
    hide Inv, Slot;
    InitInv(hash);
    assert INIT.Primary() == [] && INIT.procs == map[];
  }

  lemma TidyRuns(hash: Hash, trace: seq<Action>)
    requires NoSweep(trace)
    ensures Inv(hash, Run(hash, INIT, trace)) && Tidy(hash, Run(hash, INIT, trace))
  {
    hide Run, Inv, Tidy;
    InitTidy(hash);
    RunTidy(hash, INIT, trace);
    RunKeepsInv(hash, INIT, trace);
  }

  /** In every interleaving of ShortenURL calls, redirects and stamps without cleanup, even when every
      lookup reads an arbitrarily old state: a URL has at most one row, and any two calls that returned
      for the same URL returned the same row and key. */
  lemma OneKeyPerUrl(hash: Hash, trace: seq<Action>)
    requires NoSweep(trace)
    ensures OneRowEach(Run(hash, INIT, trace).Primary())
    ensures OneAnswerEach(Run(hash, INIT, trace).procs)
  {
    var s := Run(hash, INIT, trace);
    TidyRuns(hash, trace);
    TableHasOneRowEach(hash, s.Primary());
    CallsAgree(hash, s.Primary(), s.procs);
  }

  lemma DoneRowIsFound(hash: Hash, s: Sys, p: Pid)
    requires Inv(hash, s) && AllLive(s.Primary()) && p in s.procs && s.procs[p].pc.Done?
    ensures var Proc(url, Done(id, key)) := s.procs[p];
      id < |s.Primary()| && Read(s, key, None, NoFault) == Found(id, s.Primary()[id])
      && s.Primary()[id].url == url
  {
    assert PcInv(hash, s.Primary(), s.procs[p].url, s.procs[p].pc);
    FindLive(s.Primary(), s.procs[p].pc.id);
  }

  /** Without cleanup a returned key redirects to its URL for ever. */
  lemma KeyIsForever(hash: Hash, trace: seq<Action>, p: Pid)
    requires NoSweep(trace)
    requires p in Run(hash, INIT, trace).procs && Run(hash, INIT, trace).procs[p].pc.Done?
    ensures var s := Run(hash, INIT, trace);
      var reply := Read(s, s.procs[p].pc.key, None, NoFault);
      reply.Found? && reply.id == s.procs[p].pc.id && reply.row.url == s.procs[p].url
  {
    var s := Run(hash, INIT, trace);
    TidyRuns(hash, trace);
    DoneRowIsFound(hash, s, p);
  }
}
